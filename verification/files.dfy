/**
  The per-file records handed from the extractor to the grouper, and the
  zero-match filter of `extractStyles` (index.js:134-144).
 */
module Files {
  import opened Extractor

  /** `{ filename, matches }`: one scanned file and its declarations in source order. */
  datatype FileDecls = FileDecls(filename: string, matches: seq<Decl>)

  predicate AllNonEmpty(files: seq<FileDecls>) {
    forall k :: 0 <= k < |files| ==> files[k].matches != []
  }

  /** `result.filter(({ matches }) => matches.length !== 0)` (index.js:143). */
  function DropEmpty(files: seq<FileDecls>): (r: seq<FileDecls>)
    ensures AllNonEmpty(r)
    ensures forall f :: f in r <==> f in files && f.matches != []
    ensures |r| <= |files|
  {
    if files == [] then []
    else (if files[0].matches != [] then [files[0]] else []) + DropEmpty(files[1..])
  }

  /** The filter works file by file, so it keeps the input order of the files it retains. */
  lemma {:induction false} DropEmptyConcat(a: seq<FileDecls>, b: seq<FileDecls>)
    ensures DropEmpty(a + b) == DropEmpty(a) + DropEmpty(b)
    decreases |a|
  {
    if a == [] {
      assert a + b == b;
    } else {
      var f := a[0];
      var keep := if f.matches != [] then [f] else [];
      assert a == [f] + a[1..];
      assert a + b == [f] + (a[1..] + b);
      DropEmptyCons(f, a[1..] + b);
      DropEmptyCons(f, a[1..]);
      DropEmptyConcat(a[1..], b);
      ConcatAssoc(keep, DropEmpty(a[1..]), DropEmpty(b));
    }
  }

  /** Concatenation is associative. */
  lemma ConcatAssoc<T>(a: seq<T>, b: seq<T>, c: seq<T>)
    ensures (a + b) + c == a + (b + c)
  {
  }

  /** The filter on a list with a known first file. */
  lemma DropEmptyCons(f: FileDecls, rest: seq<FileDecls>)
    ensures DropEmpty([f] + rest) == (if f.matches != [] then [f] else []) + DropEmpty(rest)
  {
    assert ([f] + rest)[1..] == rest;
  }

  /** A list whose files all have declarations passes the filter unchanged. */
  lemma {:induction false} DropEmptyKeeps(files: seq<FileDecls>)
    requires AllNonEmpty(files)
    ensures DropEmpty(files) == files
    decreases |files|
  {
    if files != [] {
      DropEmptyKeeps(files[1..]);
    }
  }

  /** Every file read, with `transformStyles` applied to its text, before filtering. */
  function TransformAll(names: seq<string>, inputs: seq<(string, string)>): (r: seq<FileDecls>)
    ensures |r| == |inputs|
    ensures forall k :: 0 <= k < |r| ==>
              r[k] == FileDecls(inputs[k].0, TransformStyles(names, inputs[k].1))
  {
    seq(|inputs|, k requires 0 <= k < |inputs| =>
      FileDecls(inputs[k].0, TransformStyles(names, inputs[k].1)))
  }

  /**
    `extractStyles` once the files have been read: the inputs are
    (filename, text) pairs in the order of the file list.
   */
  function ExtractStyles(names: seq<string>, inputs: seq<(string, string)>): seq<FileDecls> {
    DropEmpty(TransformAll(names, inputs))
  }

  /**
    The files kept by `extractStyles` are exactly the inputs whose text has
    at least one declaration, each paired with its own declarations.
   */
  lemma ExtractStylesMembers(names: seq<string>, inputs: seq<(string, string)>)
    ensures AllNonEmpty(ExtractStyles(names, inputs))
    ensures forall f :: f in ExtractStyles(names, inputs) <==>
              exists k :: 0 <= k < |inputs| && f == FileDecls(inputs[k].0, TransformStyles(names, inputs[k].1))
                          && f.matches != []
  {
    var all := TransformAll(names, inputs);
    forall f ensures f in all <==> exists k :: 0 <= k < |inputs| && f == all[k] {
    }
  }

  /** Extracting from a concatenation of inputs concatenates the extracted lists. */
  lemma ExtractStylesConcat(names: seq<string>, a: seq<(string, string)>, b: seq<(string, string)>)
    ensures ExtractStyles(names, a + b) == ExtractStyles(names, a) + ExtractStyles(names, b)
  {
    TransformAllConcat(names, a, b);
    DropEmptyConcat(TransformAll(names, a), TransformAll(names, b));
  }

  lemma TransformAllConcat(names: seq<string>, a: seq<(string, string)>, b: seq<(string, string)>)
    ensures TransformAll(names, a + b) == TransformAll(names, a) + TransformAll(names, b)
  {
    var r := TransformAll(names, a + b);
    var t := TransformAll(names, a) + TransformAll(names, b);
    forall k | 0 <= k < |r| ensures r[k] == t[k] {
      if k < |a| {
        assert (a + b)[k] == a[k];
      } else {
        assert (a + b)[k] == b[k - |a|];
      }
    }
  }
}
