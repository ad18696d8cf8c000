/**
  The cross-file grouper `getSameColorValues` with its recursive `getResult`
  (index.js:52-108), modelled round by round on immutable per-file queues.

  Each round shifts the pivot declaration off the first file's queue, scans
  every remaining queue for declarations with exactly the pivot's value
  (when that value is not blocked), records the pivot and every match as
  occurrences under the value, skipping an occurrence equal to one already
  recorded, and drops the first file once its queue is empty.
 */
module Grouper {
  import opened Wrappers
  import opened Text
  import opened Extractor
  import opened Files

  /** `{ filename, style, line }`, one entry of a group's `found` list. */
  datatype Occurrence = Occurrence(filename: string, style: string, line: nat)

  /**
    The collaborators the grouper takes from its configuration: the blocked
    value test (`blockedStyles`, index.js:14 and 55) and the path shortening
    (`shortPath`, index.js:15 and 58).
   */
  datatype Env = Env(blocked: string -> bool, shortPath: string -> string)

  /** The result object: its keys in insertion order and each key's `found` list. */
  datatype Grouping = Grouping(keys: seq<string>, found: map<string, seq<Occurrence>>)

  predicate WellFormed(g: Grouping) {
    && (forall i, j :: 0 <= i < j < |g.keys| ==> g.keys[i] != g.keys[j])
    && (forall k :: k in g.keys ==> k in g.found)
    && (forall k :: k in g.found ==> k in g.keys)
  }

  const Empty: Grouping := Grouping([], map[])

  predicate NoDup(s: seq<Occurrence>) {
    forall i, j :: 0 <= i < j < |s| ==> s[i] != s[j]
  }

  /**
    Appends the elements of s to acc one by one, skipping each element that
    is already present: the `_.find` check of index.js:84-88.
   */
  function AppendNew(acc: seq<Occurrence>, s: seq<Occurrence>): (r: seq<Occurrence>)
    ensures NoDup(acc) ==> NoDup(r)
    ensures |acc| <= |r| && r[..|acc|] == acc
    decreases |s|
  {
    if s == [] then acc
    else AppendNew(if s[0] in acc then acc else acc + [s[0]], s[1..])
  }

  /** Append-if-absent loses nothing and adds nothing: x ends up present iff it was in acc or in s. */
  lemma {:induction false} AppendNewMember(acc: seq<Occurrence>, s: seq<Occurrence>, x: Occurrence)
    ensures x in AppendNew(acc, s) <==> x in acc || x in s
    decreases |s|
  {
    if s != [] {
      AppendNewMember(if s[0] in acc then acc else acc + [s[0]], s[1..], x);
      assert x in s <==> x == s[0] || x in s[1..];
    }
  }

  /**
    `buildOutputObject` (index.js:57-65): the shortened path, the style
    `name:value` with surrounding white space trimmed, and the line.
   */
  function BuildOutput(env: Env, filename: string, d: Decl): (o: Occurrence)
    ensures o.filename == env.shortPath(filename) && o.line == d.line
    ensures |o.style| <= |d.name| + 1 + |d.value|
    ensures o.style != [] ==> !IsJsSpace(o.style[0]) && !IsJsSpace(o.style[|o.style| - 1])
  {
    Occurrence(env.shortPath(filename), Trim(d.name + ":" + d.value), d.line)
  }

  /**
    The trim only removes white space around the joined text: a declaration
    whose name does not start, and whose value does not end, with white
    space keeps its style `name:value` verbatim.
   */
  lemma BuildOutputStyle(env: Env, filename: string, d: Decl)
    requires d.name != [] ==> !IsJsSpace(d.name[0])
    requires d.value != [] ==> !IsJsSpace(d.value[|d.value| - 1])
    ensures BuildOutput(env, filename, d).style == d.name + ":" + d.value
  {
    var s := d.name + ":" + d.value;
    assert s[0] == if d.name != [] then d.name[0] else ':';
    assert s[|s| - 1] == if d.value != [] then d.value[|d.value| - 1] else ':';
    TrimKeeps(s);
  }

  /** The style is the joined `name:value` text with only white space cut from its ends. */
  lemma BuildOutputInfix(env: Env, filename: string, d: Decl)
    ensures var s := d.name + ":" + d.value;
            var style := BuildOutput(env, filename, d).style;
            exists lo :: 0 <= lo <= |s| - |style| && style == s[lo..lo + |style|]
                         && AllSpace(s[..lo]) && AllSpace(s[lo + |style|..])
  {
    TrimInfix(d.name + ":" + d.value);
  }

  /**
    One matched declaration (index.js:78-88): the group for v is created
    holding the pivot's occurrence when it does not exist yet, then the
    matched occurrence is appended unless an equal one is already there.
   */
  function Record(g: Grouping, v: string, ethalon: Occurrence, matched: Occurrence): (r: Grouping)
    requires WellFormed(g)
    ensures WellFormed(r)
    ensures v in r.found && matched in r.found[v]
    ensures v !in g.found ==> r.keys == g.keys + [v] && r.found[v][0] == ethalon
    ensures v in g.found ==> && r.keys == g.keys && |g.found[v]| <= |r.found[v]|
                             && r.found[v][..|g.found[v]|] == g.found[v]
    ensures forall k :: k != v && k in g.found ==> k in r.found && r.found[k] == g.found[k]
    ensures forall k :: k != v ==> (k in r.found <==> k in g.found)
    ensures v in g.found && NoDup(g.found[v]) ==> NoDup(r.found[v])
  {
    var created := if v in g.found then g else Grouping(g.keys + [v], g.found[v := [ethalon]]);
    var found := created.found[v];
    if matched in found then created
    else
      assert NoDup(found) ==> NoDup(found + [matched]);
      Grouping(created.keys, created.found[v := found + [matched]])
  }

  /**
    The inner `_matches.filter(...)` over one file's queue (index.js:73-93):
    it records every declaration whose value equals the pivot's, provided
    the pivot's value is not blocked.  It removes nothing from the queue.
   */
  function ScanMatches(env: Env, filename: string, pivot: Decl, f: string, ms: seq<Decl>, g: Grouping): (r: Grouping)
    requires WellFormed(g)
    ensures WellFormed(r)
    ensures forall k :: k != pivot.value ==> (k in r.found <==> k in g.found)
    ensures forall k :: k != pivot.value && k in g.found ==> r.found[k] == g.found[k]
    decreases |ms|
  {
    if ms == [] then g
    else
      var d := ms[0];
      var g' := if pivot.value == d.value && !env.blocked(pivot.value)
                then Record(g, pivot.value, BuildOutput(env, filename, pivot), BuildOutput(env, f, d))
                else g;
      ScanMatches(env, filename, pivot, f, ms[1..], g')
  }

  /** `valuesArray.forEach(...)` (index.js:72-94): every file's queue, in list order. */
  function ScanFiles(env: Env, filename: string, pivot: Decl, fs: seq<FileDecls>, g: Grouping): (r: Grouping)
    requires WellFormed(g)
    ensures WellFormed(r)
    ensures forall k :: k != pivot.value ==> (k in r.found <==> k in g.found)
    ensures forall k :: k != pivot.value && k in g.found ==> r.found[k] == g.found[k]
    decreases |fs|
  {
    if fs == [] then g
    else ScanFiles(env, filename, pivot, fs[1..], ScanMatches(env, filename, pivot, fs[0].filename, fs[0].matches, g))
  }

  /** Number of declarations still queued. */
  function TotalDecls(files: seq<FileDecls>): nat {
    if files == [] then 0 else |files[0].matches| + TotalDecls(files[1..])
  }

  /** The queues after `valuesArray[0].matches.shift()` (index.js:68). */
  function Shifted(files: seq<FileDecls>): (r: seq<FileDecls>)
    requires files != [] && files[0].matches != []
  {
    [files[0].(matches := files[0].matches[1..])] + files[1..]
  }

  /**
    The queues at the end of a round: the pivot is gone, the first file is
    dropped when that emptied it (index.js:96-97), and nothing else changes.
   */
  function NextQueues(files: seq<FileDecls>): (r: seq<FileDecls>)
    requires files != [] && files[0].matches != []
    ensures AllNonEmpty(r) <==> AllNonEmpty(files[1..])
    ensures TotalDecls(r) + 1 == TotalDecls(files)
    ensures |files| - 1 <= |r| <= |files| && r[|r| - (|files| - 1)..] == files[1..]
  {
    var s := Shifted(files);
    assert TotalDecls(s) == |s[0].matches| + TotalDecls(files[1..]);
    if s[0].matches == [] then files[1..]
    else
      assert forall k :: 1 <= k < |s| ==> s[k] == files[1..][k - 1];
      s
  }

  /** A list of queues is non-empty throughout iff its head and its tail are. */
  lemma AllNonEmptyCons(files: seq<FileDecls>)
    requires files != []
    ensures AllNonEmpty(files) <==> files[0].matches != [] && AllNonEmpty(files[1..])
  {
    if files[0].matches != [] && AllNonEmpty(files[1..]) {
      forall k | 0 <= k < |files| ensures files[k].matches != [] {
        if k > 0 {
          assert files[k] == files[1..][k - 1];
        }
      }
    }
  }

  /**
    `getResult` (index.js:67-103) on the queues it can handle: one round per
    call, recursing while a queue remains.
   */
  function GetResult(env: Env, files: seq<FileDecls>, g: Grouping): (r: Grouping)
    requires files != [] && AllNonEmpty(files)
    requires WellFormed(g)
    ensures WellFormed(r)
    decreases TotalDecls(files)
  {
    var pivot := files[0].matches[0];
    var g' := ScanFiles(env, files[0].filename, pivot, Shifted(files), g);
    var next := NextQueues(files);
    AllNonEmptyCons(files);
    if next == [] then g' else GetResult(env, next, g')
  }

  /** `TypeError`: a round read the queue of a file that does not exist or is empty. */
  datatype GroupError = UndefinedQueue

  /**
    `getResult` (index.js:67-103) on any queues, as written: a round throws
    when there is no first queue (`valuesArray[0].matches` at index.js:68) or
    when the first queue is empty (`shift()` returns `undefined`, which
    index.js:70 destructures). Otherwise it shifts the pivot, scans every
    queue, drops the first file once emptied, and recurses while a file
    remains.
   */
  function TryGetResult(env: Env, files: seq<FileDecls>, g: Grouping): (r: Result<Grouping, GroupError>)
    requires WellFormed(g)
    ensures r.Success? ==> WellFormed(r.value)
    ensures files == [] ==> r.Failure?
    decreases TotalDecls(files)
  {
    if files == [] || files[0].matches == [] then Failure(UndefinedQueue)
    else
      var pivot := files[0].matches[0];
      var g' := ScanFiles(env, files[0].filename, pivot, Shifted(files), g);
      var next := NextQueues(files);
      if next == [] then Success(g') else TryGetResult(env, next, g')
  }

  /**
    The as-written rounds throw exactly when some file in the list has no
    declaration, or the list is empty: an empty queue eventually becomes the
    first one, and no round empties a queue other than the first.
   */
  lemma {:induction false} TryGetResultFails(env: Env, files: seq<FileDecls>, g: Grouping)
    requires WellFormed(g)
    ensures TryGetResult(env, files, g).Failure? <==> files == [] || !AllNonEmpty(files)
    decreases TotalDecls(files)
  {
    if files != [] && files[0].matches != [] {
      AllNonEmptyCons(files);
      var pivot := files[0].matches[0];
      var g' := ScanFiles(env, files[0].filename, pivot, Shifted(files), g);
      var next := NextQueues(files);
      if next != [] {
        TryGetResultFails(env, next, g');
      }
    }
  }

  /** On non-empty queues the as-written rounds succeed with the result of `GetResult`. */
  lemma {:induction false} TryGetResultAgrees(env: Env, files: seq<FileDecls>, g: Grouping)
    requires files != [] && AllNonEmpty(files)
    requires WellFormed(g)
    ensures TryGetResult(env, files, g) == Success(GetResult(env, files, g))
    decreases TotalDecls(files)
  {
    AllNonEmptyCons(files);
    var pivot := files[0].matches[0];
    var g' := ScanFiles(env, files[0].filename, pivot, Shifted(files), g);
    var next := NextQueues(files);
    if next != [] {
      TryGetResultAgrees(env, next, g');
    }
  }

  /** `getSameColorValues` as written (index.js:52-108): the rounds start on an empty result object. */
  function GetSameColorValues(env: Env, files: seq<FileDecls>): (r: Result<Grouping, GroupError>)
    ensures r.Success? ==> WellFormed(r.value)
    ensures files == [] ==> r.Failure?
  {
    TryGetResult(env, files, Empty)
  }

  /**
    What the as-written grouper does: it fails iff the file list is empty or
    holds a file without declarations, and otherwise returns what the rounds
    of `GetResult` build from an empty result.
   */
  lemma GetSameColorValuesSpec(env: Env, files: seq<FileDecls>)
    ensures GetSameColorValues(env, files).Failure? <==> files == [] || !AllNonEmpty(files)
    ensures files != [] && AllNonEmpty(files) ==>
              GetSameColorValues(env, files) == Success(GetResult(env, files, Empty))
  {
    TryGetResultFails(env, files, Empty);
    if files != [] && AllNonEmpty(files) {
      TryGetResultAgrees(env, files, Empty);
    }
  }

  /** The grouper with an empty corpus giving an empty result instead of failing. */
  function GroupColors(env: Env, files: seq<FileDecls>): (r: Grouping)
    requires AllNonEmpty(files)
    ensures WellFormed(r)
    ensures files == [] ==> r == Empty
  {
    if files == [] then Empty else GetResult(env, files, Empty)
  }

  /**
    The corrected grouper changes only the failing case: whenever the
    as-written grouper succeeds, its files have declarations and it returns
    the corrected result; on lists of non-empty files it fails only on the
    empty list, where the corrected one returns the empty result.
   */
  lemma GroupColorsAgrees(env: Env, files: seq<FileDecls>)
    ensures GetSameColorValues(env, files).Success? ==>
              AllNonEmpty(files) && GetSameColorValues(env, files).value == GroupColors(env, files)
    ensures AllNonEmpty(files) ==> (GetSameColorValues(env, files).Failure? <==> files == [])
  {
    GetSameColorValuesSpec(env, files);
  }
}
