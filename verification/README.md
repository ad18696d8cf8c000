# CSSDuplicates core in Dafny

CSSDuplicates scans stylesheets for declarations of configured properties
(`color`, `background`, …). It groups the declarations that repeat the same
value across the corpus into one report entry per value. This project models
the three pure parts of index.js and proves properties about them:

- `transformStyles` (index.js:30-50). It splits a stylesheet into lines and
  runs the global, case-insensitive pattern `(name1|name2|…):.+;` over each
  line. Each match becomes a declaration `{ name, value, line }`: the text
  before the first `:` and the lower-cased text between the first and second
  `:`.
- The zero-match filter of `extractStyles` (index.js:143).
- `getSameColorValues` with its recursive `getResult`, `checkIfNotBlockedValue`
  and `buildOutputObject` (index.js:52-108). Each round, the first queued
  declaration becomes the pivot. Every queue is scanned for declarations with
  the same value, and the pivot and its matches are recorded under that value.
  An occurrence equal to one already recorded is skipped.

Modules, one per part of the program:

| module | models |
|---|---|
| `Wrappers` | `Option` and `Result` |
| `Text` | `toLowerCase`, `trim` and `split('\n')`, restricted to what the program uses |
| `Extractor` | the declaration pattern and `transformStyles` |
| `Files` | the per-file records and the zero-match filter |
| `Grouper` | `getSameColorValues` round by round, as written and with the empty-corpus case corrected |
| `GroupSpec` | a declarative description of the report, and the proof that the rounds compute it |
| `Pipeline` | the composition in index.js:146-149 from file texts to the report |

Two collaborators are parameters of the grouper (`Grouper.Env`), because they
are regular expressions built from configuration and the file system:

- the blocked-value test `blockedStyles` (index.js:14, 55);
- the path shortening `shortPath` (index.js:15, 58).

File contents come in as `(filename, text)` pairs instead of being read from
disk.

Where the code differs from the program's description, the model follows the
code:

- The value is the raw text between the first and second colon, only
  lower-cased. It is neither trimmed nor cut at the `;`, so `color: red;`
  yields the value ` red;`. Only the `style` of an occurrence is trimmed
  (index.js:62).
- The greedy `.+` runs to the last `;` before a line terminator, so two
  declarations on one line separated by spaces form a single match. Two
  matches on one line need a `\r`, U+2028 or U+2029 between them, because
  only `\n` splits lines.
- A value becomes a key when at least two declarations carry it
  (`GroupSpec.Shared`). Those declarations may build equal occurrences, for
  example `color:red;\rcolor:red;` on one line, which gives two equal
  declarations. In that case the group holds a single occurrence.
- With no configured property name the pattern is `():.+;`, which matches
  any `:…;`: the line `:a;` declares the empty name with value `a;`.
- The run fails when no file has a declaration. See "## Findings".

The report is `Grouping(keys, found)`. `keys` lists the properties of the
result object in insertion order, and `found[v]` is the `found` list of
value `v`.

## Model

| member | source | states |
|---|---|---|
| Text.ToLower | index.js:42 | The lower-cased value equals the input up to ASCII letter case and holds no upper-case ASCII letter |
| Text.ToLowerIdentifiesCase | index.js:42 | Two texts lower-case to the same value exactly when they are equal up to ASCII letter case |
| Text.ToLowerNormalises | index.js:42 | A lower-cased value holds no upper-case ASCII letter, and lower-casing it again changes nothing |
| Text.SplitLines | index.js:32 | Splitting at `\n` yields at least one line; no line holds `\n`; joining the lines with `\n` gives back the text |
| Text.SplitJoin | index.js:32 | Joining newline-free lines and splitting again gives back the same lines |
| Text.Trim | index.js:62 | The trimmed style is no longer than the input and neither starts nor ends with JavaScript white space |
| Text.TrimInfix | index.js:62 | The trimmed style is a contiguous piece of the joined `name:value` text |
| Text.TrimKeeps | index.js:62 | A text that neither starts nor ends with white space is left unchanged by trim |
| Extractor.AltEndGreedy | index.js:13 | One alternative matches at a position iff some end is reachable; the match ends after the last `;` before a line terminator (greedy `.+`) |
| Extractor.MatchFromFirst | index.js:13 | The alternation matches iff some alternative matches; the first such alternative in configuration order decides the match |
| Extractor.EmptyNamesMatchAnyColon | index.js:13 | With no configured name the pattern `():.+;` still matches: the line `:a;` yields one declaration with the empty name and value `a;` |
| Extractor.NextMatch | index.js:34 | The match found is the leftmost one at or after the resume position, and no position before it matches |
| Extractor.MatchSpans | index.js:34-37 | The matches of one line lie within the line, each is a real match of the pattern, and they follow each other without overlap |
| Extractor.MatchSpansCover | index.js:34-37 | Every position where the pattern matches lies inside one of the collected matches, so none is missed |
| Extractor.Declare | index.js:38-44 | The name is the text before the first colon; the value holds no colon and no upper-case letter; the line number is kept |
| Extractor.DeclareFields | index.js:38-42 | For `name:raw` followed by nothing or by another `:` segment, the declaration is exactly name and lower-cased raw |
| Extractor.LineDeclsMatches | index.js:33-46 | A line yields one declaration per match, in match order; the k-th is the `split(':')` record of the k-th matched text, carrying that line's 1-based number |
| Extractor.DeclsFrom | index.js:31-49 | The declarations of the remaining lines carry numbers of those lines in non-decreasing order |
| Extractor.TransformStylesLines | index.js:30-50 | Every declaration lies on a line of the text; declarations are ordered by line; the declarations on line n are exactly that line's matches |
| Extractor.LineDeclNames | index.js:13 | Every declared name equals one of the configured names up to letter case; with no configured name every declared name is empty |
| Files.DropEmpty | index.js:143 | Exactly the files with at least one declaration are kept |
| Files.DropEmptyConcat | index.js:143 | The filter distributes over concatenation, so the kept files stay in input order |
| Files.DropEmptyKeeps | index.js:143 | The filter leaves a list with no empty file unchanged |
| Files.ExtractStylesMembers | index.js:134-144 | `extractStyles` returns exactly the records of input files that have declarations, none of them empty |
| Files.ExtractStylesConcat | index.js:134-144 | Extracting two batches of files separately and concatenating equals extracting them together |
| Grouper.AppendNewMember | index.js:84-88 | Appending with the "already exists" check ends with exactly the occurrences that were there or were appended |
| Grouper.AppendNew | index.js:84-88 | The existing list is a prefix of the result, and a duplicate-free list stays duplicate-free |
| Grouper.BuildOutput | index.js:57-65 | An occurrence carries the shortened path and the line of its declaration; its style is no longer than `name:value` and neither starts nor ends with white space |
| Grouper.BuildOutputStyle | index.js:62 | When the name does not start and the value does not end with white space, the style is exactly `name:value` |
| Grouper.BuildOutputInfix | index.js:62 | The style is the joined `name:value` text with only white space removed from its two ends |
| Grouper.Record | index.js:78-88 | A new value gets a key at the end with the pivot first; an existing group only grows at its end; the matched occurrence is present; other keys are untouched |
| Grouper.ScanMatches | index.js:73-93 | Scanning one queue changes only the pivot value's group |
| Grouper.ScanFiles | index.js:72-94 | Scanning all queues changes only the pivot value's group |
| Grouper.NextQueues | index.js:68-98 | A round removes exactly one declaration, drops only the first file and only when it is emptied, and leaves the other queues as they were, so the queues stay non-empty iff the later files were |
| Grouper.GetResult | index.js:67-103 | The result object keeps distinct keys, each with a `found` list |
| Grouper.TryGetResultFails | index.js:67-103 | The as-written rounds throw iff the queue list is empty or some file in it has no declaration |
| Grouper.TryGetResultAgrees | index.js:67-103 | On a non-empty list of non-empty queues the as-written rounds succeed with the result of `GetResult` |
| Grouper.GetSameColorValuesSpec | index.js:52-108 | `getSameColorValues` fails iff the file list is empty or holds a file without declarations, and otherwise returns the rounds' result from an empty object |
| Grouper.GroupColorsAgrees | index.js:52-108 | Whenever the as-written grouper succeeds it returns the corrected grouper's result; on files with declarations it fails only on the empty list |
| GroupSpec.Flat | index.js:72-73 | The global entry sequence has one entry per queued declaration |
| GroupSpec.ScanFilesIsScanEntries | index.js:72-94 | Scanning the queues file by file equals scanning their entries in global order |
| GroupSpec.ScanEntriesEffect | index.js:72-94 | A scan adds, to the pivot value's group (created with the pivot first), every matching occurrence not yet present; a blocked value adds nothing |
| GroupSpec.FlatRound | index.js:68-98 | A round's pivot is the first entry in global order, and the next round works on the remaining entries |
| GroupSpec.GetResultIsProcess | index.js:67-103 | The recursive rounds equal one round per entry of the global sequence, in order |
| GroupSpec.GroupColorsSpec | index.js:52-108 | A value is a key iff it is not blocked and carried by at least two declarations; its group is the de-duplicated occurrences of those declarations in global order; keys appear in order of first occurrence |
| GroupSpec.GroupProperties | index.js:74-88 | A blocked value is never a key; a group has no duplicates; its first entry is the earliest declaration of the value; every entry comes from a declaration of the value |
| GroupSpec.DedupIsFirsts | index.js:84-88 | The "already exists" de-duplication keeps the first copy of each occurrence in order |
| GroupSpec.AppendNewConcat | index.js:84-88 | Appending two batches one after the other equals appending them together |
| Pipeline.NoColonNoDecls | index.js:30-50 | A text without a colon yields no declarations |
| Pipeline.RunAsWrittenFails | index.js:143-149 | The program as written fails iff no input file yields a declaration |
| Pipeline.EmptyCorpusFails | index.js:68 | A corpus of one rule-only stylesheet makes the as-written run fail, and the corrected run reports nothing |
| Pipeline.RunSpec | index.js:146-149 | From file texts to report: keys, groups and key order as stated by `GroupSpec.GroupColorsSpec` over all extracted declarations, agreeing with the as-written run whenever it succeeds |

## Left out

- File discovery `getFiles` and the stylesheet-extension filter (index.js:12, 19-28): file-system I/O. The model takes the file list and contents as input.
- `readFile`, `Promise.all` and the async top level (index.js:134-153): I/O and scheduling. The file order of the list is kept.
- `saveToHTML` (index.js:110-132): HTML rendering and a file write. It only reads the report, and its own colour pattern is not modelled.
- Grouper.Env: the blocked test and the path shortening are uninterpreted parameters. The regular expressions built from `filtered` and `__dirname` are not modelled. The shared `lastIndex` of the global `blockedStyles` pattern, which `new RegExp(blockedStyles)` resets at index.js:55, is not modelled either. A path without `__dirname`, which makes index.js:58 throw, is not modelled.
- Text.ToLower: only ASCII letters are folded. `toLowerCase` and the `i` flag also fold non-ASCII letters.
- Extractor.MatchFromFirst: the configured names are treated as literal text. Regular-expression metacharacters inside a configured name are not interpreted.
- Extractor.LineDeclNames: assumes that no configured property name contains a colon, which holds for CSS property names.
- Grouper.Grouping: `keys` is insertion order. JavaScript enumerates integer-like property names first, and `saveToHTML` sees that order. Values are texts after a colon and are rarely integer-like.
- Grouper.Record: values that name `Object.prototype` members (`constructor`, `__proto__`, `toString`) are treated as absent keys. In the program `result[value]` is then truthy or special, and index.js:78-88 behaves differently or throws.
- Grouper.AppendNew: lodash `_.find` with an object is modelled as equality of whole occurrences (all three fields), which is what the partial deep match amounts to for these flat objects.
- Grouper.GetResult: the in-place `shift` mutations and the recursion depth limit of the engine are not modelled. Queues are immutable values, and each round builds the next ones.

## Findings

| source | as written | input that shows it | evidently intended | confidence | as-written member | corrected member |
|---|---|---|---|---|---|---|
| index.js:68 | The first round reads `valuesArray[0].matches` even when `extractStyles` returned an empty list, which throws a `TypeError` | one file `a.css` with text `body {}` (no colon, so no declaration) | an empty report | not executed | Pipeline.EmptyCorpusFails | Grouper.GroupColors |
