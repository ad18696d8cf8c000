/**
  The declaration extractor `transformStyles` (index.js:30-50).

  Every line of a stylesheet is searched with the global, case-insensitive
  regular expression `(<name1>|<name2>|...):.+;` built from the configured
  property names (index.js:13).  The regular expression is modelled exactly:
  a match starts at the leftmost position where some alternative succeeds,
  alternatives are tried in list order, and the greedy `.+` makes the match
  run to the last ';' that is reachable without crossing a line terminator.
  Each match is split on ':' and becomes a declaration carrying the text
  before the first ':' as its name, the lower-cased text between the first
  and the second ':' as its value, and its 1-based line number.
 */
module Extractor {
  import opened Wrappers
  import opened Text

  datatype Decl = Decl(name: string, value: string, line: nat)

  /** The characters the regular-expression `.` does not match. */
  predicate IsLineTerminator(c: char) {
    c == '\n' || c == '\r' || c == '\U{2028}' || c == '\U{2029}'
  }

  /** line[lo..hi] can be consumed by `.`. */
  predicate DotsOnly(line: string, lo: nat, hi: nat)
    requires lo <= hi <= |line|
  {
    forall k :: lo <= k < hi ==> !IsLineTerminator(line[k])
  }

  /** A configured property name occurs at position i, ignoring ASCII case. */
  predicate NameAt(line: string, i: nat, name: string) {
    i + |name| <= |line| && SameIgnoringCase(line[i..i + |name|], name)
  }

  /**
    The alternative `name:.+;` tried at position i can finish with its ';' at
    position j: the name, a ':', at least one character, then a ';' at j, with
    no line terminator between the ':' and j.
   */
  predicate CanEndAt(line: string, i: nat, name: string, j: nat) {
    && NameAt(line, i, name)
    && i + |name| < |line| && line[i + |name|] == ':'
    && i + |name| + 2 <= j < |line| && line[j] == ';'
    && DotsOnly(line, i + |name| + 1, j)
  }

  /** End of the run of `.`-characters starting at lo. */
  function RunEnd(line: string, lo: nat): (r: nat)
    requires lo <= |line|
    ensures lo <= r <= |line|
    ensures DotsOnly(line, lo, r)
    ensures r < |line| ==> IsLineTerminator(line[r])
    decreases |line| - lo
  {
    if lo == |line| || IsLineTerminator(line[lo]) then lo else RunEnd(line, lo + 1)
  }

  /** The greatest j in [lo, hi) with line[j] == ';'. */
  function LastSemicolon(line: string, lo: nat, hi: nat): (r: Option<nat>)
    requires lo <= hi <= |line|
    ensures r.Some? ==> lo <= r.value < hi && line[r.value] == ';'
    ensures r.Some? ==> forall j :: r.value < j < hi ==> line[j] != ';'
    ensures r.None? ==> forall j :: lo <= j < hi ==> line[j] != ';'
    decreases hi - lo
  {
    if hi == lo then None
    else if line[hi - 1] == ';' then Some(hi - 1)
    else LastSemicolon(line, lo, hi - 1)
  }

  /**
    The alternative `name:.+;` at position i: the end (exclusive) of the
    greedy match, or None when the alternative fails there.
   */
  function AltEnd(line: string, i: nat, name: string): (r: Option<nat>)
    ensures r.Some? ==> i + |name| + 2 < r.value <= |line| && line[i + |name|] == ':'
    ensures r.Some? ==> ':' in line[i..r.value]
  {
    if NameAt(line, i, name) && i + |name| < |line| && line[i + |name|] == ':' then
      var s := i + |name| + 1;
      var e := RunEnd(line, s);
      if s + 1 <= e then
        var j := LastSemicolon(line, s + 1, e);
        if j.Some? then
          assert line[i..j.value + 1][|name|] == ':';
          Some(j.value + 1)
        else None
      else None
    else None
  }

  /** No ';' reachable from the ':' lies beyond the end of the run of `.`-characters. */
  lemma CanEndBeforeRunEnd(line: string, i: nat, name: string, j: nat)
    requires CanEndAt(line, i, name, j)
    ensures j < RunEnd(line, i + |name| + 1)
  {
    assert !IsLineTerminator(line[j]);
  }

  /**
    AltEnd is the greedy reading of `name:.+;`: it succeeds exactly when some
    ';' can end the alternative, and then it ends after the last such ';'.
   */
  lemma AltEndGreedy(line: string, i: nat, name: string)
    ensures AltEnd(line, i, name).Some? <==> exists j: nat :: CanEndAt(line, i, name, j)
    ensures AltEnd(line, i, name).Some? ==>
              && CanEndAt(line, i, name, AltEnd(line, i, name).value - 1)
              && forall j: nat :: CanEndAt(line, i, name, j) ==> j < AltEnd(line, i, name).value
  {
    var r := AltEnd(line, i, name);
    forall j: nat | CanEndAt(line, i, name, j)
      ensures r.Some? && j < r.value
    {
      CanEndBeforeRunEnd(line, i, name, j);
    }
    if r.Some? {
      var s := i + |name| + 1;
      var e := RunEnd(line, s);
      assert DotsOnly(line, s, r.value - 1);
      assert CanEndAt(line, i, name, r.value - 1);
    }
  }

  /**
    The regular expression at position i: alternatives names[k..] are tried in
    order and the first one that succeeds decides the end of the match.
   */
  function MatchFrom(line: string, names: seq<string>, i: nat, k: nat): (r: Option<nat>)
    requires k <= |names|
    ensures r.Some? ==> i + 2 < r.value <= |line| && ':' in line[i..r.value]
    decreases |names| - k
  {
    if k == |names| then None
    else if AltEnd(line, i, names[k]).Some? then AltEnd(line, i, names[k])
    else MatchFrom(line, names, i, k + 1)
  }

  /**
    The alternatives are tried in list order: the expression matches at i
    exactly when some alternative does, and then the first alternative that
    succeeds decides where the match ends.
   */
  lemma {:induction false} MatchFromFirst(line: string, names: seq<string>, i: nat, k: nat)
    requires k <= |names|
    ensures MatchFrom(line, names, i, k).Some? <==>
              exists a :: k <= a < |names| && AltEnd(line, i, names[a]).Some?
    ensures MatchFrom(line, names, i, k).Some? ==>
              exists a :: && k <= a < |names| && AltEnd(line, i, names[a]) == MatchFrom(line, names, i, k)
                          && forall b :: k <= b < a ==> AltEnd(line, i, names[b]).None?
    decreases |names| - k
  {
    var r := MatchFrom(line, names, i, k);
    if k == |names| {
      assert r.None?;
    } else if AltEnd(line, i, names[k]).Some? {
      assert r == AltEnd(line, i, names[k]);
    } else {
      assert r == MatchFrom(line, names, i, k + 1);
      MatchFromFirst(line, names, i, k + 1);
      if r.Some? {
        var a :| && k + 1 <= a < |names| && AltEnd(line, i, names[a]) == r
                 && forall b :: k + 1 <= b < a ==> AltEnd(line, i, names[b]).None?;
        assert forall b :: k <= b < a ==> AltEnd(line, i, names[b]).None?;
      } else {
        forall a | k <= a < |names| ensures AltEnd(line, i, names[a]).None? {
          if a > k {
            assert k + 1 <= a < |names|;
          }
        }
      }
    }
  }

  /**
    The alternatives of the group `(name1|name2|…)` built by joining the names
    with '|': an empty list joins to the empty group `()`, whose one
    alternative is the empty text.
   */
  function Alternatives(names: seq<string>): (r: seq<string>)
    ensures |r| >= 1
    ensures names != [] ==> r == names
    ensures names == [] ==> r == [""]
  {
    if names == [] then [""] else names
  }

  /** The whole regular expression anchored at position i. */
  function MatchAt(line: string, names: seq<string>, i: nat): Option<nat> {
    MatchFrom(line, Alternatives(names), i, 0)
  }

  /** The leftmost position >= pos where the regular expression matches, with the match end. */
  function NextMatch(line: string, names: seq<string>, pos: nat): (r: Option<(nat, nat)>)
    requires pos <= |line|
    ensures r.Some? ==> pos <= r.value.0 < r.value.1 <= |line|
    ensures r.Some? ==> MatchAt(line, names, r.value.0) == Some(r.value.1)
    ensures r.Some? ==> forall i :: pos <= i < r.value.0 ==> MatchAt(line, names, i).None?
    ensures r.None? ==> forall i :: pos <= i <= |line| ==> MatchAt(line, names, i).None?
    decreases |line| - pos
  {
    var m := MatchAt(line, names, pos);
    if m.Some? then Some((pos, m.value))
    else if pos == |line| then None
    else NextMatch(line, names, pos + 1)
  }

  /**
    `line.match(colors)` with the global flag: the spans [start, end) of the
    successive matches, each search resuming where the previous match ended.
   */
  function MatchSpans(line: string, names: seq<string>, pos: nat): (r: seq<(nat, nat)>)
    requires pos <= |line|
    ensures forall k :: 0 <= k < |r| ==> pos <= r[k].0 < r[k].1 <= |line|
    ensures forall k :: 0 <= k < |r| ==> MatchAt(line, names, r[k].0) == Some(r[k].1)
    ensures forall k :: 0 <= k < |r| - 1 ==> r[k].1 <= r[k + 1].0
    decreases |line| - pos
  {
    match NextMatch(line, names, pos)
    case None => []
    case Some((i, e)) => [(i, e)] + MatchSpans(line, names, e)
  }

  /** Position i lies inside one of the spans. */
  predicate Covered(spans: seq<(nat, nat)>, i: nat) {
    exists k :: 0 <= k < |spans| && spans[k].0 <= i < spans[k].1
  }

  lemma CoveredCons(span: (nat, nat), tail: seq<(nat, nat)>, i: nat)
    requires span.0 <= i < span.1 || Covered(tail, i)
    ensures Covered([span] + tail, i)
  {
    var r := [span] + tail;
    if span.0 <= i < span.1 {
      assert r[0].0 <= i < r[0].1;
    } else {
      var k :| 0 <= k < |tail| && tail[k].0 <= i < tail[k].1;
      assert r[k + 1] == tail[k];
    }
  }

  /** The spans miss no match: every position where the expression matches lies in a span. */
  lemma {:induction false} MatchSpansCover(line: string, names: seq<string>, pos: nat)
    requires pos <= |line|
    ensures forall i :: pos <= i < |line| && MatchAt(line, names, i).Some? ==>
              Covered(MatchSpans(line, names, pos), i)
    decreases |line| - pos
  {
    var next := NextMatch(line, names, pos);
    if next.Some? {
      var s := next.value.0;
      var e := next.value.1;
      var tail := MatchSpans(line, names, e);
      assert MatchSpans(line, names, pos) == [(s, e)] + tail;
      MatchSpansCover(line, names, e);
      forall i | pos <= i < |line| && MatchAt(line, names, i).Some?
        ensures Covered([(s, e)] + tail, i)
      {
        CoveredCons((s, e), tail, i);
      }
    }
  }

  /** Index of the first ':' at or after from, or |s|. */
  function IndexOfColon(s: string, from: nat): (r: nat)
    requires from <= |s|
    ensures from <= r <= |s|
    ensures forall k :: from <= k < r ==> s[k] != ':'
    ensures r < |s| ==> s[r] == ':'
    decreases |s| - from
  {
    if from == |s| || s[from] == ':' then from else IndexOfColon(s, from + 1)
  }

  /**
    `const [name, value] = match.split(':')` followed by the record of
    index.js:40-44: the name is the text before the first ':', the value the
    lower-cased text between the first and the second ':' (or the end).
   */
  function Declare(m: string, line: nat): (d: Decl)
    requires ':' in m
    ensures d.line == line
    ensures ':' !in d.name && ':' !in d.value
    ensures forall k :: 0 <= k < |d.value| ==> !IsAsciiUpper(d.value[k])
    ensures |d.name| < |m| && m[..|d.name|] == d.name && m[|d.name|] == ':'
  {
    var c1 := IndexOfColon(m, 0);
    var c2 := IndexOfColon(m, c1 + 1);
    ToLowerNormalises(m[c1 + 1..c2]);
    Decl(m[..c1], ToLower(m[c1 + 1..c2]), line)
  }

  /** Splitting undoes joining: a name and a raw value without ':' are recovered. */
  lemma DeclareFields(name: string, raw: string, rest: string, line: nat)
    requires ':' !in name && ':' !in raw
    requires rest == [] || rest[0] == ':'
    ensures Declare(name + ":" + raw + rest, line) == Decl(name, ToLower(raw), line)
  {
    var m := name + ":" + raw + rest;
    assert m[|name|] == ':';
    assert forall k :: 0 <= k < |name| ==> m[k] == name[k] && name[k] in name;
    assert IndexOfColon(m, 0) == |name|;
    assert forall k :: |name| + 1 <= k < |name| + 1 + |raw| ==>
             m[k] == raw[k - |name| - 1] && raw[k - |name| - 1] in raw;
    assert rest != [] ==> m[|name| + 1 + |raw|] == rest[0];
    assert IndexOfColon(m, |name| + 1) == |name| + 1 + |raw|;
    assert m[..|name|] == name;
    assert m[|name| + 1..|name| + 1 + |raw|] == raw;
  }

  /** The declarations of one line, numbered n. */
  function SpansToDecls(line: string, spans: seq<(nat, nat)>, n: nat): (r: seq<Decl>)
    requires forall k :: 0 <= k < |spans| ==> spans[k].0 < spans[k].1 <= |line|
    requires forall k :: 0 <= k < |spans| ==> ':' in line[spans[k].0..spans[k].1]
    ensures |r| == |spans|
    ensures forall k :: 0 <= k < |r| ==> r[k] == Declare(line[spans[k].0..spans[k].1], n)
  {
    if spans == [] then []
    else [Declare(line[spans[0].0..spans[0].1], n)] + SpansToDecls(line, spans[1..], n)
  }

  /** The declarations found on one source line (index.js:34-46). */
  function LineDecls(names: seq<string>, line: string, n: nat): (r: seq<Decl>)
    ensures |r| == |MatchSpans(line, names, 0)|
    ensures forall k :: 0 <= k < |r| ==> r[k].line == n
  {
    var spans := MatchSpans(line, names, 0);
    assert forall k :: 0 <= k < |spans| ==>
             MatchFrom(line, Alternatives(names), spans[k].0, 0) == Some(spans[k].1);
    SpansToDecls(line, spans, n)
  }

  /**
    Each match of a line becomes one declaration, in match order: the k-th
    declaration is `split(':')` of the k-th matched text, numbered n.
   */
  lemma LineDeclsMatches(names: seq<string>, line: string, n: nat)
    ensures var spans := MatchSpans(line, names, 0);
            var r := LineDecls(names, line, n);
            && |r| == |spans|
            && forall k :: 0 <= k < |r| ==>
                 && ':' in line[spans[k].0..spans[k].1]
                 && r[k] == Declare(line[spans[k].0..spans[k].1], n)
  {
    var spans := MatchSpans(line, names, 0);
    assert forall k :: 0 <= k < |spans| ==>
             MatchFrom(line, Alternatives(names), spans[k].0, 0) == Some(spans[k].1);
  }

  /** Declarations of lines[k..], line i numbered i + 1, flattened in line order. */
  function DeclsFrom(names: seq<string>, lines: seq<string>, k: nat): (r: seq<Decl>)
    requires k <= |lines|
    ensures forall i :: 0 <= i < |r| ==> k + 1 <= r[i].line <= |lines|
    ensures forall i, j :: 0 <= i < j < |r| ==> r[i].line <= r[j].line
    decreases |lines| - k
  {
    if k == |lines| then []
    else LineDecls(names, lines[k], k + 1) + DeclsFrom(names, lines, k + 1)
  }

  /** `transformStyles`: the declarations of a whole stylesheet text. */
  function TransformStyles(names: seq<string>, text: string): seq<Decl> {
    DeclsFrom(names, SplitLines(text), 0)
  }

  /** The declarations of r that carry line number n, in order. */
  function OnLine(r: seq<Decl>, n: nat): (s: seq<Decl>)
    ensures forall d :: d in s <==> d in r && d.line == n
  {
    if r == [] then []
    else (if r[0].line == n then [r[0]] else []) + OnLine(r[1..], n)
  }

  lemma OnLineConcat(a: seq<Decl>, b: seq<Decl>, n: nat)
    ensures OnLine(a + b, n) == OnLine(a, n) + OnLine(b, n)
  {
    if a == [] {
      assert a + b == b;
    } else {
      assert (a + b)[1..] == a[1..] + b;
      assert (a + b)[0] == a[0];
      OnLineConcat(a[1..], b, n);
    }
  }

  lemma OnLineAll(a: seq<Decl>, n: nat)
    requires forall i :: 0 <= i < |a| ==> a[i].line == n
    ensures OnLine(a, n) == a
  {
  }

  lemma OnLineNone(a: seq<Decl>, n: nat)
    requires forall i :: 0 <= i < |a| ==> a[i].line != n
    ensures OnLine(a, n) == []
  {
  }

  /**
    Exactly the declarations of source line n carry line number n: the
    extractor output restricted to line n is that line's matches, in order.
    Lines without a match therefore contribute nothing.
   */
  lemma {:induction false} DeclsFromPerLine(names: seq<string>, lines: seq<string>, k: nat, n: nat)
    requires k <= |lines|
    requires k + 1 <= n <= |lines|
    ensures OnLine(DeclsFrom(names, lines, k), n) == LineDecls(names, lines[n - 1], n)
    decreases |lines| - k
  {
    var here := LineDecls(names, lines[k], k + 1);
    var rest := DeclsFrom(names, lines, k + 1);
    OnLineConcat(here, rest, n);
    if n == k + 1 {
      OnLineAll(here, n);
      OnLineNone(rest, n);
    } else {
      OnLineNone(here, n);
      DeclsFromPerLine(names, lines, k + 1, n);
    }
  }

  /**
    The line numbers of `transformStyles`: every declaration's line is the
    1-based index of a source line, the output is ordered by line, and the
    declarations of line n are exactly the matches found on that line.
   */
  lemma TransformStylesLines(names: seq<string>, text: string)
    ensures var r := TransformStyles(names, text);
            var lines := SplitLines(text);
            && (forall i :: 0 <= i < |r| ==> 1 <= r[i].line <= |lines|)
            && (forall i, j :: 0 <= i < j < |r| ==> r[i].line <= r[j].line)
            && (forall n :: 1 <= n <= |lines| ==> OnLine(r, n) == LineDecls(names, lines[n - 1], n))
  {
    var lines := SplitLines(text);
    forall n | 1 <= n <= |lines|
      ensures OnLine(DeclsFrom(names, lines, 0), n) == LineDecls(names, lines[n - 1], n)
    {
      DeclsFromPerLine(names, lines, 0, n);
    }
  }

  /** A prefix without ':' that is followed by ':' ends at the first ':'. */
  lemma FirstColonUnique(m: string, c: nat, prefix: string)
    requires c < |m| && m[c] == ':' && forall j :: 0 <= j < c ==> m[j] != ':'
    requires |prefix| < |m| && m[..|prefix|] == prefix && m[|prefix|] == ':' && ':' !in prefix
    ensures |prefix| == c
  {
    assert forall j :: 0 <= j < |prefix| ==> m[j] == prefix[j] && prefix[j] in prefix;
  }

  /**
    The name of a declaration is the alternative it matched, with the case it
    has in the stylesheet (for names without ':').
   */
  lemma MatchName(names: seq<string>, line: string, i: nat, n: nat)
    requires forall a :: 0 <= a < |names| ==> ':' !in names[a]
    requires MatchAt(line, names, i).Some?
    ensures var d := Declare(line[i..MatchAt(line, names, i).value], n);
            var alts := Alternatives(names);
            exists a :: 0 <= a < |alts| && SameIgnoringCase(d.name, alts[a])
  {
    var alts := Alternatives(names);
    var e := MatchAt(line, names, i).value;
    var m := line[i..e];
    MatchFromFirst(line, alts, i, 0);
    var a :| 0 <= a < |alts| && AltEnd(line, i, alts[a]) == Some(e);
    assert ':' !in alts[a];
    AltEndPrefix(line, i, alts[a]);
    DeclaredName(m, alts[a], n);
  }

  /** A match of one alternative starts with that name, up to case, followed by ':'. */
  lemma AltEndPrefix(line: string, i: nat, name: string)
    requires AltEnd(line, i, name).Some?
    ensures var m := line[i..AltEnd(line, i, name).value];
            && |name| < |m| && m[|name|] == ':'
            && SameIgnoringCase(m[..|name|], name)
  {
    var m := line[i..AltEnd(line, i, name).value];
    assert NameAt(line, i, name) by {
      AltEndGreedy(line, i, name);
    }
    assert m[..|name|] == line[i..i + |name|];
  }

  /** A match text that starts with `name:` declares that name, in the text's case. */
  lemma DeclaredName(m: string, name: string, n: nat)
    requires ':' !in name && |name| < |m| && m[|name|] == ':'
    requires SameIgnoringCase(m[..|name|], name)
    ensures SameIgnoringCase(Declare(m, n).name, name)
  {
    var d := Declare(m, n);
    forall j | 0 <= j < |name| ensures m[j] != ':' {
      assert LowerChar(m[..|name|][j]) == LowerChar(name[j]);
      assert name[j] in name;
    }
    FirstColonUnique(m, |name|, d.name);
  }

  /**
    Every declaration of a line names one of the configured properties, up to
    ASCII case; with no configured property the pattern is `():.+;` and every
    declaration has the empty name.
   */
  lemma LineDeclNames(names: seq<string>, line: string, n: nat)
    requires forall a :: 0 <= a < |names| ==> ':' !in names[a]
    ensures names != [] ==> forall d :: d in LineDecls(names, line, n) ==>
              exists a :: 0 <= a < |names| && SameIgnoringCase(d.name, names[a])
    ensures names == [] ==> forall d :: d in LineDecls(names, line, n) ==> d.name == ""
  {
    var spans := MatchSpans(line, names, 0);
    var r := LineDecls(names, line, n);
    var alts := Alternatives(names);
    forall k | 0 <= k < |r|
      ensures exists a :: 0 <= a < |alts| && SameIgnoringCase(r[k].name, alts[a])
    {
      MatchName(names, line, spans[k].0, n);
    }
    if names == [] {
      forall k | 0 <= k < |r| ensures r[k].name == "" {
        assert SameIgnoringCase(r[k].name, alts[0]);
      }
    }
  }

  /**
    With no configured property the pattern `():.+;` matches any `:text;`:
    the line `:a;` yields one declaration with the empty name.
   */
  lemma EmptyNamesMatchAnyColon()
    ensures MatchAt(":a;", [], 0) == Some(3)
    ensures LineDecls([], ":a;", 1) == [Decl("", "a;", 1)]
  {
    var line := ":a;";
    EmptyNamesSpans();
    LineDeclsMatches([], line, 1);
    assert line[0..3] == "" + ":" + "a;" + "";
    DeclareFields("", "a;", "", 1);
    ToLowerNormalises("a;");
    assert ToLower("a;") == "a;";
  }

  lemma EmptyNamesSpans()
    ensures MatchAt(":a;", [], 0) == Some(3)
    ensures MatchSpans(":a;", [], 0) == [(0, 3)]
  {
    var line := ":a;";
    assert AltEnd(line, 0, "") == Some(3) by {
      assert CanEndAt(line, 0, "", 2);
      AltEndGreedy(line, 0, "");
    }
    assert NextMatch(line, [], 0) == Some((0, 3));
    assert NextMatch(line, [], 3) == None by {
      AltEndGreedy(line, 3, "");
      assert MatchAt(line, [], 3).None?;
    }
    assert MatchSpans(line, [], 3) == [];
  }
}
