/**
  String helpers with the behaviour of the JavaScript built-ins the tool uses:
  `toLowerCase` (ASCII letters only), `trim`, and `split('\n')`.
 */
module Text {

  predicate IsAsciiUpper(c: char) {
    'A' <= c <= 'Z'
  }

  /** Maps an ASCII upper-case letter to its lower-case form, every other char to itself. */
  function LowerChar(c: char): char {
    if IsAsciiUpper(c) then (c as int + 32) as char else c
  }

  /** `String.prototype.toLowerCase`, restricted to ASCII letters. */
  function ToLower(s: string): (r: string)
    ensures SameIgnoringCase(r, s)
    ensures forall i :: 0 <= i < |r| ==> !IsAsciiUpper(r[i])
  {
    seq(|s|, i requires 0 <= i < |s| => LowerChar(s[i]))
  }

  /** Two strings that differ only in the case of ASCII letters. */
  predicate SameIgnoringCase(a: string, b: string) {
    |a| == |b| && forall i :: 0 <= i < |a| ==> LowerChar(a[i]) == LowerChar(b[i])
  }

  /** Lower-casing erases exactly the differences of ASCII letter case. */
  lemma ToLowerIdentifiesCase(a: string, b: string)
    ensures ToLower(a) == ToLower(b) <==> SameIgnoringCase(a, b)
  {
    if ToLower(a) == ToLower(b) {
      forall i | 0 <= i < |a|
        ensures LowerChar(a[i]) == LowerChar(b[i])
      {
        assert ToLower(a)[i] == ToLower(b)[i];
      }
    }
  }

  /**
    Lowering leaves a string unchanged exactly when it holds no ASCII
    upper-case letter; in particular lowering twice is lowering once.
   */
  lemma ToLowerNormalises(s: string)
    ensures ToLower(s) == s <==> forall i :: 0 <= i < |s| ==> !IsAsciiUpper(s[i])
    ensures ToLower(ToLower(s)) == ToLower(s)
  {
    if forall i :: 0 <= i < |s| ==> !IsAsciiUpper(s[i]) {
      forall i | 0 <= i < |s| ensures ToLower(s)[i] == s[i] {
        assert LowerChar(s[i]) == s[i];
      }
    }
  }

  /** WhiteSpace and LineTerminator code points, the set `String.prototype.trim` strips. */
  predicate IsJsSpace(c: char) {
    || c == '\t' || c == '\n' || c == '\U{B}' || c == '\U{C}' || c == '\r' || c == ' '
    || c == '\U{A0}' || c == '\U{1680}' || ('\U{2000}' <= c <= '\U{200A}')
    || c == '\U{2028}' || c == '\U{2029}' || c == '\U{202F}' || c == '\U{205F}'
    || c == '\U{3000}' || c == '\U{FEFF}'
  }

  predicate AllSpace(s: string) {
    forall i :: 0 <= i < |s| ==> IsJsSpace(s[i])
  }

  /** Number of leading white-space characters of s[lo..]. */
  function SkipSpace(s: string, lo: nat): (r: nat)
    requires lo <= |s|
    ensures lo <= r <= |s|
    ensures AllSpace(s[lo..r])
    ensures r < |s| ==> !IsJsSpace(s[r])
    decreases |s| - lo
  {
    if lo == |s| || !IsJsSpace(s[lo]) then lo else SkipSpace(s, lo + 1)
  }

  /** End of s[lo..hi] once its trailing white space is removed. */
  function DropSpaceEnd(s: string, lo: nat, hi: nat): (r: nat)
    requires lo <= hi <= |s|
    ensures lo <= r <= hi
    ensures AllSpace(s[r..hi])
    ensures r > lo ==> !IsJsSpace(s[r - 1])
    decreases hi - lo
  {
    if hi == lo || !IsJsSpace(s[hi - 1]) then hi
    else
      var r := DropSpaceEnd(s, lo, hi - 1);
      assert s[r..hi] == s[r..hi - 1] + [s[hi - 1]];
      r
  }

  /** `String.prototype.trim`. */
  function Trim(s: string): (r: string)
    ensures |r| <= |s|
    ensures r != [] ==> !IsJsSpace(r[0]) && !IsJsSpace(r[|r| - 1])
  {
    var lo := SkipSpace(s, 0);
    s[lo..DropSpaceEnd(s, lo, |s|)]
  }

  /** Trim removes white space only, and only at the two ends. */
  lemma TrimInfix(s: string)
    ensures exists lo :: 0 <= lo <= |s| - |Trim(s)| && Trim(s) == s[lo..lo + |Trim(s)|]
                         && AllSpace(s[..lo]) && AllSpace(s[lo + |Trim(s)|..])
  {
    var lo := SkipSpace(s, 0);
    var hi := DropSpaceEnd(s, lo, |s|);
    assert Trim(s) == s[lo..hi];
    assert AllSpace(s[..lo]) by {
      assert s[..lo] == s[0..lo];
    }
    assert AllSpace(s[hi..]) by {
      assert s[hi..] == s[hi..|s|];
    }
    assert lo + |Trim(s)| == hi;
  }

  /** Text that neither starts nor ends with white space is left as it is by trim. */
  lemma TrimKeeps(s: string)
    requires s != [] ==> !IsJsSpace(s[0]) && !IsJsSpace(s[|s| - 1])
    ensures Trim(s) == s
  {
    if s != [] {
      assert SkipSpace(s, 0) == 0;
      assert DropSpaceEnd(s, 0, |s|) == |s|;
      assert s[0..|s|] == s;
    }
  }

  /** Index of the first '\n' in s, or |s| when there is none. */
  function IndexOfNewline(s: string): (k: nat)
    ensures k <= |s|
    ensures forall i :: 0 <= i < k ==> s[i] != '\n'
    ensures k < |s| ==> s[k] == '\n'
  {
    if s == [] then 0
    else if s[0] == '\n' then 0
    else 1 + IndexOfNewline(s[1..])
  }

  /** `lines.join('\n')`. */
  function JoinLines(lines: seq<string>): string
    requires |lines| >= 1
  {
    if |lines| == 1 then lines[0] else lines[0] + "\n" + JoinLines(lines[1..])
  }

  /** `text.split('\n')`: at least one line, none holding a '\n', and joining gives the text back. */
  function SplitLines(s: string): (r: seq<string>)
    ensures |r| >= 1
    ensures forall i :: 0 <= i < |r| ==> '\n' !in r[i]
    ensures JoinLines(r) == s
    ensures forall i, c :: 0 <= i < |r| && c in r[i] ==> c in s
    decreases |s|
  {
    var k := IndexOfNewline(s);
    if k == |s| then
      assert s[..k] == s;
      [s]
    else
      var rest := SplitLines(s[k + 1..]);
      assert s == s[..k] + "\n" + s[k + 1..];
      assert '\n' !in s[..k];
      [s[..k]] + rest
  }

  /** Splitting undoes joining, for lines that hold no '\n'. */
  lemma {:induction false} SplitJoin(lines: seq<string>)
    requires |lines| >= 1
    requires forall i :: 0 <= i < |lines| ==> '\n' !in lines[i]
    ensures SplitLines(JoinLines(lines)) == lines
    decreases |lines|
  {
    var s := JoinLines(lines);
    var k := IndexOfNewline(s);
    if |lines| == 1 {
      assert forall i :: 0 <= i < |s| ==> s[i] in lines[0];
      assert s[..k] == s;
    } else {
      var tail := JoinLines(lines[1..]);
      assert s == lines[0] + "\n" + tail;
      assert forall i :: 0 <= i < |lines[0]| ==> s[i] == lines[0][i] && s[i] in lines[0];
      assert s[|lines[0]|] == '\n';
      assert k == |lines[0]|;
      assert s[..k] == lines[0];
      assert s[k + 1..] == tail;
      SplitJoin(lines[1..]);
    }
  }
}
