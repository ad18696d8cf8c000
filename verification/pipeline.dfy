/**
  The run of index.js:146-149 once the stylesheets have been read: extract
  the declarations of every file, drop the files without any, and group.
  The directory walk and the file reads are replaced by a list of
  (filename, text) pairs in the order of the file list.
 */
module Pipeline {
  import opened Wrappers
  import opened Text
  import opened Extractor
  import opened Files
  import opened Grouper
  import opened GroupSpec

  /** The run as written: `getSameColorValues(await extractStyles(files))`. */
  function RunAsWritten(env: Env, names: seq<string>, inputs: seq<(string, string)>): Result<Grouping, GroupError> {
    GetSameColorValues(env, ExtractStyles(names, inputs))
  }

  /** The run with an empty corpus reported as an empty grouping. */
  function Run(env: Env, names: seq<string>, inputs: seq<(string, string)>): Grouping {
    ExtractStylesMembers(names, inputs);
    GroupColors(env, ExtractStyles(names, inputs))
  }

  /** Without a ':' the expression `name:.+;` cannot match anywhere on a line. */
  lemma NoColonMatchAt(line: string, names: seq<string>, i: nat)
    requires ':' !in line
    ensures MatchAt(line, names, i).None?
  {
    forall j, k | 0 <= j <= k <= |line| ensures ':' !in line[j..k] {
      assert forall x :: x in line[j..k] ==> x in line;
    }
  }

  lemma {:induction false} NoColonNoMatch(line: string, names: seq<string>, pos: nat)
    requires ':' !in line && pos <= |line|
    ensures NextMatch(line, names, pos).None?
    decreases |line| - pos
  {
    NoColonMatchAt(line, names, pos);
    if pos < |line| {
      NoColonNoMatch(line, names, pos + 1);
    }
  }

  lemma {:induction false} NoColonDeclsFrom(names: seq<string>, lines: seq<string>, k: nat)
    requires k <= |lines|
    requires forall i :: 0 <= i < |lines| ==> ':' !in lines[i]
    ensures DeclsFrom(names, lines, k) == []
    decreases |lines| - k
  {
    if k < |lines| {
      NoColonNoMatch(lines[k], names, 0);
      NoColonDeclsFrom(names, lines, k + 1);
    }
  }

  /** A stylesheet text without a ':' yields no declaration. */
  lemma NoColonNoDecls(names: seq<string>, text: string)
    requires ':' !in text
    ensures TransformStyles(names, text) == []
  {
    var lines := SplitLines(text);
    assert forall i :: 0 <= i < |lines| ==> ':' !in lines[i];
    NoColonDeclsFrom(names, lines, 0);
  }

  /**
    The run as written fails exactly when no input holds a declaration: the
    filtered list is then empty and the first round reads `valuesArray[0]`
    of an empty array (index.js:68).
   */
  lemma RunAsWrittenFails(env: Env, names: seq<string>, inputs: seq<(string, string)>)
    ensures RunAsWritten(env, names, inputs).Failure? <==>
              forall k :: 0 <= k < |inputs| ==> TransformStyles(names, inputs[k].1) == []
  {
    var kept := ExtractStyles(names, inputs);
    ExtractStylesMembers(names, inputs);
    GetSameColorValuesSpec(env, kept);
    assert RunAsWritten(env, names, inputs).Failure? <==> kept == [];
    NothingKept(names, inputs);
  }

  /** The zero-match filter keeps nothing exactly when no input holds a declaration. */
  lemma NothingKept(names: seq<string>, inputs: seq<(string, string)>)
    ensures ExtractStyles(names, inputs) == [] <==>
              forall k :: 0 <= k < |inputs| ==> TransformStyles(names, inputs[k].1) == []
  {
    var all := TransformAll(names, inputs);
    var kept := DropEmpty(all);
    if forall k :: 0 <= k < |inputs| ==> TransformStyles(names, inputs[k].1) == [] {
      assert forall j :: 0 <= j < |all| ==> all[j].matches == [];
      DropEmptyAllEmpty(all);
    } else {
      var k :| 0 <= k < |inputs| && TransformStyles(names, inputs[k].1) != [];
      assert all[k].matches != [] && all[k] in all;
      assert kept != [];
    }
  }

  lemma {:induction false} DropEmptyAllEmpty(files: seq<FileDecls>)
    requires forall k :: 0 <= k < |files| ==> files[k].matches == []
    ensures DropEmpty(files) == []
    decreases |files|
  {
    if files != [] {
      DropEmptyAllEmpty(files[1..]);
    }
  }

  /** A concrete failing run: one stylesheet whose only rule declares nothing. */
  lemma EmptyCorpusFails(env: Env, names: seq<string>)
    ensures RunAsWritten(env, names, [("a.css", "body {}")]).Failure?
    ensures Run(env, names, [("a.css", "body {}")]) == Empty
  {
    var inputs := [("a.css", "body {}")];
    assert ExtractStyles(names, inputs) == [] by {
      NoColonNoDecls(names, "body {}");
      NothingKept(names, inputs);
    }
  }

  /** The zero-match filter drops no declaration: the global entry sequence is unchanged. */
  lemma {:induction false} FlatDropEmpty(files: seq<FileDecls>)
    ensures Flat(DropEmpty(files)) == Flat(files)
    decreases |files|
  {
    if files != [] {
      var f := files[0];
      var d := DropEmpty(files[1..]);
      FlatDropEmpty(files[1..]);
      assert Flat(files) == FileEntries(f) + Flat(files[1..]);
      if f.matches == [] {
        assert DropEmpty(files) == d;
        assert FileEntries(f) == [];
      } else {
        assert DropEmpty(files) == [f] + d;
        assert ([f] + d)[1..] == d;
      }
    }
  }

  /**
    The whole run against the declarative grouping of every declaration of
    every input, file by file and line by line: the zero-match filter loses
    nothing, the run never fails, and it agrees with the run as written
    whenever that one succeeds.
   */
  lemma RunSpec(env: Env, names: seq<string>, inputs: seq<(string, string)>)
    ensures var r := Run(env, names, inputs);
            var all := Flat(TransformAll(names, inputs));
            && (forall v :: v in r.found <==> Shared(env, all, v))
            && (forall v :: v in r.found ==> r.found[v] == SpecGroup(env, all, v))
            && r.keys == KeyOrder(env, all, all)
    ensures RunAsWritten(env, names, inputs).Success? ==>
              RunAsWritten(env, names, inputs).value == Run(env, names, inputs)
  {
    ExtractStylesMembers(names, inputs);
    FlatDropEmpty(TransformAll(names, inputs));
    GroupColorsSpec(env, ExtractStyles(names, inputs));
    GroupColorsAgrees(env, ExtractStyles(names, inputs));
  }
}
