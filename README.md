# cdiff, pdiff and qdiff in Dafny

This project models the three `diff` front ends of the cdiff repository:

- **pdiff** (the `pdiff` package) runs `diff -dr` on two roots. It reads the output one line at a time and rebuilds it in a text accumulator. Paths are shortened to `«A»`/`«B»` markers, every line is coloured by the side it comes from, each file's body is framed by separators, and line ranges are rendered as `line n` / `lines n-m` labels. A brief mode (`-b`) keeps only the per-file messages. `process_args` turns the command line into the two roots, the brief switch and the flags passed on to `diff`.
- **cdiff** (`cdiff.py`) is the older single-file variant. It has its own inline accumulator whose colour lookup is strict (`self.colors[which]`). It has no brief mode, and its path shortening replaces every occurrence of the root, not just the first.
- **qdiff** (`qdiff.py`) reads `diff -qr` output. It sorts each line into the files that differ (`inBoth`), the entries only under the first root (`inA`) and the entries only under the second (`inB`), and prints each entry as it goes.

The modules follow the program's structure:

| module | file | what it holds |
|---|---|---|
| `Strings` | strings.dfy | the Python string and path functions the core uses: `startswith`, `replace` (all or first), `strip`, `rstrip('/')`, `os.path.join`, `basename`, `dirname` |
| `Patterns` | patterns.dfy | the regular expressions of the main loop, modelled as a greedy matcher `MatchGreedy` for `pre(.*)mid(.*)post`; the range lines `([0-9,]*)c([0-9,]*)$`; the if/elif chain as `Classify` |
| `Render` | render.dfy | the value meaning of `TextAccumulator` (`startline`, `set_color`, `add`, `line`, `mode`) on a `Buffer(text, curwhich)` |
| `Accumulator` | accumulator.dfy | the `TextAccumulator` class, whose methods are proved against `Render` |
| `PDiff` | pdiff.dfy | `out_line`, `get_which`, `simplify_path`, the `MyAccumulator` class, and the loop of `main` as a state machine `Step`/`Run` with the imperative `Report` proved against it |
| `PDiffArgs` | pdiff_args.dfy | `process_args` as a function `Parse`, with the imperative loop `ProcessArgs` proved equal to it |
| `CDiff` | cdiff.dfy | cdiff's `get_which`, its replace-all `simplify_path`, its inline accumulator class and its `main` loop |
| `QDiff` | qdiff.dfy | `hilite_path` and the `inA`/`inB`/`inBoth` loop |

termcolor's `colored` is a parameter of type `Render.Colored`, an arbitrary function from (text, colour, attributes) to text. Only a few lemmas about line breaks need more than that. They assume `Render.KeepsLineOpen(colored)`: colouring a text that does not end a line does not produce one that does.

Each main loop is specified in two layers:
- a pure function `Step` for one line;
- a left fold `Run` over all the lines.

The methods that do the work (`PDiff.Report`, `CDiff.Report`, `QDiff.Report`) mutate an accumulator object or local lists. Each loop invariant says the state so far equals `Run` over the lines read so far. The properties of the output are lemmas about `Apply`, `Step` and `Run`.

Behaviour of the code that the model keeps as written:
- `process_args` receives all of `sys.argv`, so the program's own name is the first directory (`PDiffArgs.ProgramNameIsFirstDir`).
- The third test in `process_args` asks whether `"="` is one of the arguments, not whether the argument contains `=` (`PDiffArgs.EqualsFlagIsDir`, `PDiffArgs.EqualsFlagIsLongFlag`).
- cdiff's `simplify_path` replaces every occurrence of the root (`CDiff.SimplifyReplacesEveryOccurrence`).
- The roots are not normalised. They are the first `glob` match with trailing slashes removed. pdiff substitutes the empty string when nothing matches.
- In qdiff, the first root is tried first. When it is a string prefix of the second root, the second root's `Only in` lines land in `inA` (`QDiff.PrefixRootLandsInA`).

## Model

| member | source | states |
|---|---|---|
| Strings.StripSlice | pdiff/__init__.py:95 | `line.strip()` keeps a contiguous slice of the line: only white space is cut from either end, and the result neither begins nor ends with white space |
| Strings.StripIdempotent | pdiff/__init__.py:95 | stripping a stripped line changes nothing |
| Strings.BasenameDirname | qdiff.py:23-24 | `basename` holds no slash and `dirname` is a prefix of the path |
| Strings.StripKeepsPrefix | pdiff/__init__.py:186 | `rstrip("/")` returns a prefix of its argument |
| Patterns.MatchGreedySound | pdiff/__init__.py:102 | a match splits the line into `pre + group1 + mid + group2 + post + rest` |
| Patterns.MatchGreedyLongest | pdiff/__init__.py:102 | every split the pattern admits is matched, and the groups chosen are the greedy ones: the first group is the longest possible, then the second |
| Patterns.MatchGreedyFits | pdiff/__init__.py:112 | the chosen groups are themselves an admissible split |
| Patterns.MatchToEnd | pdiff/__init__.py:112 | with the `$` anchor (empty `post`), the second group runs to the end of the line |
| Patterns.RangeSpan | pdiff/__init__.py:150 | `[0-9,]*` takes the longest run of digits and commas |
| Patterns.ParseRangeExact | pdiff/__init__.py:150-168 | a range pattern matches exactly the lines `g1 + letter + g2` with both groups made of digits and commas, and returns exactly those groups |
| Patterns.RangeLettersExclusive | pdiff/__init__.py:150-168 | no line matches two range patterns with different letters |
| Patterns.NoMessage | pdiff/__init__.py:102-121 | a line that starts with none of `B`, `O`, `di` matches none of the three message patterns |
| Patterns.BodyLineClassified | pdiff/__init__.py:132-148 | a line beginning `<` or `>` is a removed or added body line carrying the text after its first two characters |
| Patterns.RangeLineClassified | pdiff/__init__.py:150-176 | a well-formed `c`, `d` or `a` range line is a change, a deletion or an addition with its two ranges |
| Patterns.DividerUnrecognized | pdiff/__init__.py:102-176 | diff's `---` divider selects no branch |
| Patterns.OnlyInClassified | pdiff/__init__.py:112-119 | an `Only in d: n` line is recognised, and its directory group reaches at least as far as `d` |
| Render.StartLineSpec | pdiff/accumulator.py:12-16 | the buffer ends at a line start, at most one newline is added and none when already at one, and the category is reset |
| Render.Add | pdiff/accumulator.py:25-31 | the text grows by the coloured token, a space and a newline when `endline`; the current category follows `set_color` |
| Render.LineSpec | pdiff/accumulator.py:33-38 | after a separator the buffer is at a line start with no current category |
| Render.ModeSpec | pdiff/accumulator.py:41-48 | the header starts on a fresh line, in bold underline then `": "` in the category's colour, and is followed by a newline only when `endline` |
| Render.AddEndsLine | pdiff/accumulator.py:25-31 | `add` with `endline` leaves the buffer at a line start, so a following `startline` adds nothing |
| Render.StartLineIdempotent | pdiff/accumulator.py:12-16 | starting a line twice is the same as once |
| Render.StartLineAtMostOne | pdiff/accumulator.py:12-16 | an empty buffer stays empty and at most one character is added |
| Render.RepeatEnds | pdiff/accumulator.py:37 | `char*n` ends with the last character of `char` |
| Render.LineSeparator | pdiff/accumulator.py:33-38 | a separator of a non-newline character is 80 or 40 copies alone on their line, followed by exactly one newline |
| Render.ClosesLine | pdiff/accumulator.py:38 | a text that ends with the repeated character gets exactly one newline |
| Render.ModeEndsLine | pdiff/accumulator.py:41-48 | a header with `endline` ends with exactly one newline after the coloured `": "` |
| Render.ModeLeavesLineOpen | pdiff/accumulator.py:41-48 | a header without `endline` leaves its line open |
| Render.AppendOnly | pdiff/accumulator.py:12-48 | every accumulator operation only appends to the text |
| Render.PrefixTrans | pdiff/accumulator.py:12-48 | being a prefix is transitive, so a sequence of appends keeps the old text as a prefix |
| Accumulator.TextAccumulator.constructor | pdiff/accumulator.py:7-10 | an empty text, an empty colour map and no current category |
| Accumulator.TextAccumulator.StartLine | pdiff/accumulator.py:12-16 | the new state is `Render.StartLine` of the old |
| Accumulator.TextAccumulator.SetColor | pdiff/accumulator.py:18-23 | returns the mapped colour, or `""` for an unmapped category; a non-empty category becomes current |
| Accumulator.TextAccumulator.Add | pdiff/accumulator.py:25-31 | the new state is `Render.Add` of the old; the text grows by exactly the coloured token |
| Accumulator.TextAccumulator.Line | pdiff/accumulator.py:33-38 | the new state is `Render.Line` of the old |
| Accumulator.TextAccumulator.Mode | pdiff/accumulator.py:41-48 | the new state is `Render.Mode` of the old |
| PDiff.Swap | pdiff/__init__.py:25 | replacing one character by another keeps the length and changes exactly the positions holding it |
| PDiff.ReplaceLetter | pdiff/__init__.py:25 | `str.replace` of one character by another is that per-position swap |
| PDiff.OutLineRoundTrip | pdiff/__init__.py:22-26 | for a range made of digits and commas, the label reads back to the range: the comma-to-dash rewrite loses nothing |
| PDiff.OutLineForm | pdiff/__init__.py:22-26 | the label is plural exactly when the range holds a comma; a single line reads `line n`; the label holds no comma |
| PDiff.OutLinePlural | pdiff/__init__.py:24-25 | a range with a comma gives `lines ` and the range with every comma turned into a dash, so no comma is left |
| PDiff.OutLineSingular | pdiff/__init__.py:26 | a range without a comma gives `line ` and the range unchanged |
| PDiff.SwapRemoves | pdiff/__init__.py:25 | after replacing every comma by a dash no comma is left |
| PDiff.OutLineExamples | pdiff/__init__.py:22-26 | `5` gives `line 5`, `5,9` gives `lines 5-9`, and the empty range gives `line ` |
| PDiff.GetWhichOrder | pdiff/__init__.py:33-37 | `A` exactly when root A begins the path, `B` exactly when root B does and A does not, `?` otherwise; an empty root A claims every path |
| PDiff.SimplifyAgreesWithGetWhich | pdiff/__init__.py:27-37 | the shortened path is the marker of the side `get_which` picks followed by the rest of the path after that root, or the path itself for `?` |
| PDiff.SimplifyExpand | pdiff/__init__.py:27-32 | putting the root back in place of the marker restores the path, so shortening loses nothing |
| PDiff.SimplifyIdempotent | pdiff/__init__.py:27-32 | shortening a shortened path changes nothing when neither root is empty or starts with `«` |
| PDiff.MyAccumulator.constructor | pdiff/__init__.py:42-45 | an empty accumulator, not in a file, holding the two roots |
| PDiff.MyAccumulator.FileMode | pdiff/__init__.py:47-49 | the accumulator is in a file afterwards |
| PDiff.MyAccumulator.NotFileMode | pdiff/__init__.py:50-54 | a long `=` separator is drawn exactly when a file body was open, and the file is closed |
| PDiff.MyAccumulator.Path | pdiff/__init__.py:56-59 | the path is appended shortened, in bold underline, in the colour of its side, and that side becomes current |
| PDiff.Dispatch | pdiff/__init__.py:94-176 | one iteration of the loop moves the accumulator and the pending ranges exactly as `Step` does |
| PDiff.Handle | pdiff/__init__.py:102-176 | each branch of the if/elif chain changes the state exactly as `Apply` does for that line's record |
| PDiff.HandleMessage | pdiff/__init__.py:102-131 | the `Binary files`, `Only in` and `diff` header branches change the state exactly as `Apply` does |
| PDiff.HandleBody | pdiff/__init__.py:132-148 | the `<` and `>` branches change the state exactly as `Apply` does, the pending labels included |
| PDiff.HandleHunk | pdiff/__init__.py:150-176 | the `c`, `d` and `a` branches change the state exactly as `Apply` does, and nothing in brief mode |
| PDiff.EmitChange | pdiff/__init__.py:153-154 | the text after a `c` header is the short separator and the `BOTH` header ending its line |
| PDiff.EmitDelete | pdiff/__init__.py:162-165 | the text after a `d` header is the separator, the A header and the two ranges |
| PDiff.EmitAppend | pdiff/__init__.py:171-176 | the text after an `a` header is the separator, the B header, the two ranges and the echoed line |
| PDiff.Open | pdiff/__init__.py:65-86 | the colour table is set and the `DIR`/`FILE` headers and a long separator are the whole text |
| PDiff.Report | pdiff/__init__.py:62-178 | the returned text is the header followed by `Run` over the whole stream |
| PDiff.StripClean | pdiff/__init__.py:95 | a line with no surrounding white space is left as is by `strip` |
| PDiff.RemovedLine | pdiff/__init__.py:132-139 | a `<` line adds the pending `--in A` label in bold red only when a range is pending and clears it, then the body in red on its own line; B's range and the file state are unchanged |
| PDiff.AddedLine | pdiff/__init__.py:142-148 | the same for `>` lines, with `--in B` and cyan |
| PDiff.ChangeHunkLabelsFirstLine | pdiff/__init__.py:132-156 | after a `c` hunk header, the first removed line is preceded by its `--in A lines` label, which is then consumed |
| PDiff.ChangeSetsRanges | pdiff/__init__.py:150-156 | outside brief mode a `c` header makes its two ranges the pending ones and leaves the file state alone |
| PDiff.DeleteAppendKeepRanges | pdiff/__init__.py:158-176 | `d` and `a` headers leave both pending ranges and the file-body flag as they were, in brief mode and out of it |
| PDiff.ChangeThenHunk | pdiff/__init__.py:150-176 | after a `c` header and then a `d` or `a` header, the `c` header's two ranges are still the pending ones |
| PDiff.ChangeRangeOutlivesHunk | pdiff/__init__.py:132-176 | a range set by a `c` header outlives a following `d` or `a` header: the next `<` line still gets the `--in A` label for it, in bold red, and clears it |
| PDiff.PendingRangeLabels | pdiff/__init__.py:132-139 | when `ra` is the pending A range, the next `<` line writes the `--in A` label for `ra` and then the body, and clears the A range only |
| PDiff.ChangeLineClassified | pdiff/__init__.py:95-156 | a hunk header `ra c rb` survives stripping and is read as a change with those two ranges |
| PDiff.RemovedLineClassified | pdiff/__init__.py:95-139 | `< x` survives stripping and is read as a removed line with body `x` |
| PDiff.BriefIgnoresBodies | pdiff/__init__.py:129-176 | in brief mode the output over a stream equals the output over its message lines alone: body lines, hunk headers and undecodable lines contribute nothing |
| PDiff.BriefNeverInFile | pdiff/__init__.py:129-131 | in brief mode no file body is ever open and no range is ever pending |
| PDiff.BriefApply | pdiff/__init__.py:129-176 | one brief-mode line keeps the file closed and no range pending |
| PDiff.FilesDifferLine | pdiff/__init__.py:121-131 | a `diff` header prints `FILES DIFFER`, then the two shortened paths in red and cyan ending the line; a file body opens unless in brief mode |
| PDiff.HeaderPathA | pdiff/__init__.py:125-126 | the first path of a header is `«A»` followed by the file's path relative to root A |
| PDiff.HeaderPathBUnderA | pdiff/__init__.py:127-128 | when root A is a prefix of root B, B's path is marked `«A»` |
| PDiff.MessageEndsFileBody | pdiff/__init__.py:102-119 | a `Binary` or `Only in` message closes an open file body with one `=` separator of 80 on its own line and leaves the pending ranges alone |
| PDiff.ApplyAppendOnly | pdiff/__init__.py:102-176 | no branch removes or rewrites anything already printed |
| PDiff.MessageAppendOnly | pdiff/__init__.py:102-131 | the three message branches only append |
| PDiff.BodyAppendOnly | pdiff/__init__.py:132-176 | the body-line and hunk branches only append |
| PDiff.DeleteAppendOnly | pdiff/__init__.py:158-165 | the `d` branch only appends |
| PDiff.AppendAppendOnly | pdiff/__init__.py:168-176 | the `a` branch only appends |
| PDiff.AddExtends | pdiff/accumulator.py:25-31 | `add` only appends |
| PDiff.ModeExtends | pdiff/accumulator.py:41-48 | `mode` only appends |
| PDiff.LineExtends | pdiff/accumulator.py:33-38 | `line` only appends |
| PDiff.NotFileModeExtends | pdiff/__init__.py:50-54 | `notfilemode` only appends |
| PDiff.RunExtends | pdiff/__init__.py:94-178 | the output after a prefix of the stream is a prefix of the final output |
| PDiffArgs.Dashed | pdiff/__init__.py:214 | each remaining letter becomes `-letter`, in order |
| PDiffArgs.ProcessArgs | pdiff/__init__.py:188-219 | the loop and what follows it compute exactly `Parse`: help if any argument is `--help` or `-h`, usage if fewer than two directories, else the call to `main` with the first two directories, the brief switch and the flag text |
| PDiffArgs.SortArgs | pdiff/__init__.py:193-204 | the loop detects help and otherwise collects the long flags, the short letters and the directories in order |
| PDiffArgs.DropDenied | pdiff/__init__.py:212-213 | the reserved letters `qenylrdv` are removed one after another |
| PDiffArgs.SortOneMore | pdiff/__init__.py:193-204 | one more argument adds to exactly one of the three collections |
| PDiffArgs.PlainIsDirectory | pdiff/__init__.py:203-204 | an argument not starting with `-` is a directory and not a help flag |
| PDiffArgs.RemoveAllStep | pdiff/__init__.py:211-213 | removing letters one by one is a chain of `replace(letter, "")` |
| PDiffArgs.RemoveAllKeeps | pdiff/__init__.py:209-213 | a character survives exactly when it was a flag letter and is not one of the removed letters |
| PDiffArgs.ShortLettersFrom | pdiff/__init__.py:199-200 | a letter is among the short flags exactly when some short-flag argument carries it after its dash |
| PDiffArgs.BriefIffB | pdiff/__init__.py:208-211 | brief mode is on exactly when some short-flag argument contains `b` |
| PDiffArgs.ForwardedLetters | pdiff/__init__.py:208-215 | the forwarded letters are exactly the short-flag letters other than `b` and `qenylrdv` |
| PDiffArgs.ProgramNameIsFirstDir | pdiff/__init__.py:216-224 | with `sys.argv` passed whole, `pdiff a b` compares the program itself with `a` |
| PDiffArgs.SortPlain | pdiff/__init__.py:193-204 | three plain arguments are all directories and nothing else |
| PDiffArgs.ThreeDirectories | pdiff/__init__.py:193-204 | three arguments that are all directories are the directories in order, with no letters and no long flags |
| PDiffArgs.ParseNoLetters | pdiff/__init__.py:205-224 | without bundled letters the call is not brief and forwards only the long flags |
| PDiffArgs.OneLongFlagText | pdiff/__init__.py:214-215 | one long flag and no letters give the flag followed by a space |
| PDiffArgs.NothingToRemove | pdiff/__init__.py:212-213 | removing letters from no letters leaves none |
| PDiffArgs.EqualsFlagIsDir | pdiff/__init__.py:201-204 | `-k=v` is taken as a directory unless `=` is itself an argument |
| PDiffArgs.EqualsFlagIsLongFlag | pdiff/__init__.py:201-202 | with a bare `=` argument present, `-k=v` is forwarded as a long flag and `=` becomes a directory |
| PDiffArgs.SortEquals | pdiff/__init__.py:193-204 | the argument collections for `prog -k=v x` |
| PDiffArgs.SortEqualsSign | pdiff/__init__.py:193-204 | the argument collections for `prog -k=v = x` |
| PDiffArgs.KindsEqualsSign | pdiff/__init__.py:197-204 | in `prog -k=v = x`, `-k=v` is a long flag and the rest are directories |
| PDiffArgs.KindsEquals | pdiff/__init__.py:197-204 | in `prog -k=v x`, all three arguments are directories |
| PDiffArgs.NoHelpEqualsSign | pdiff/__init__.py:194 | no help flag among `prog -k=v = x` |
| CDiff.GetWhich | cdiff.py:45-49 | `A` exactly when root 1 begins the path, `B` exactly when root 2 does and root 1 does not, `?` otherwise |
| CDiff.CategoriesAreKeys | cdiff.py:80-83 | every category the loop colours by is a key of `COLORS`, so the strict lookup never raises |
| CDiff.SimplifyAgreesWithPDiff | cdiff.py:51-57 | when the matching root occurs nowhere else in the path, replace-all shortening agrees with pdiff's replace-once |
| CDiff.SimplifyReplacesEveryOccurrence | cdiff.py:53-54 | `a/a` under root `a` becomes `«A»/«A»` in cdiff but `«A»/a` in pdiff |
| CDiff.EmptyRootMarksEveryGap | cdiff.py:53-54 | an empty first root puts a marker before the first character, between every two characters and after the last (`«A»a«A»b«A»` for `ab`), as `str.replace("", m)` does |
| CDiff.Accumulator.constructor | cdiff.py:61-65 | an empty text with the fixed `COLORS` map, not in a file, with no current category |
| CDiff.Accumulator.FileMode | cdiff.py:66-68 | in a file afterwards, the text unchanged |
| CDiff.Accumulator.NotFileMode | cdiff.py:69-73 | a long `=` separator exactly when a file body was open; closed afterwards |
| CDiff.Accumulator.StartLine | cdiff.py:74-78 | the new state is `Render.StartLine` of the old |
| CDiff.Accumulator.SetColor | cdiff.py:80-83 | returns `colors[which]`, defined only for keys of the map; a non-empty category becomes current |
| CDiff.Accumulator.Add | cdiff.py:85-91 | the new state is `Render.Add` of the old |
| CDiff.Accumulator.Line | cdiff.py:93-98 | the new state is `Render.Line` of the old |
| CDiff.Accumulator.Path | cdiff.py:100-103 | the path is appended shortened by replace-all, in bold underline, in its side's colour |
| CDiff.Accumulator.Mode | cdiff.py:105-112 | the new state is `Render.Mode` of the old |
| CDiff.Dispatch | cdiff.py:145-221 | one iteration of the loop moves the accumulator and the pending ranges exactly as `Step` does |
| CDiff.Handle | cdiff.py:153-221 | each branch changes the state exactly as `Apply` does for that line's record |
| CDiff.HandleBinary | cdiff.py:153-161 | the `Binary files` branch moves the state exactly as `OnBinary` |
| CDiff.HandleOnlyIn | cdiff.py:163-170 | the `Only in` branch moves the state exactly as `OnOnlyIn` |
| CDiff.HandleFilesDiffer | cdiff.py:172-180 | the `diff` header branch moves the state exactly as `OnFilesDiffer`, always opening a file body |
| CDiff.HandleRemoved | cdiff.py:182-187 | the `<` branch moves the state and the A range exactly as `OnRemoved` |
| CDiff.HandleAdded | cdiff.py:189-194 | the `>` branch moves the state and the B range exactly as `OnAdded` |
| CDiff.EmitChange | cdiff.py:198-199 | the text after a `c` header is the short separator and the `BOTH` header ending its line |
| CDiff.EmitDelete | cdiff.py:209-212 | the text after a `d` header is the separator, the A header and the two ranges |
| CDiff.EmitAppend | cdiff.py:216-221 | the text after an `a` header is the separator, the B header, the two ranges and the echoed line |
| CDiff.Open | cdiff.py:118-137 | the `DIR`/`FILE` headers and a long separator are the whole text, with the fixed colour map |
| CDiff.Report | cdiff.py:115-222 | the returned text is the header followed by `Run` over the whole stream |
| CDiff.UndecodableLineSkipped | cdiff.py:147-151 | a line that fails to decode changes nothing |
| CDiff.BareChangeClassified | cdiff.py:196 | a lone `c` matches the change pattern with two empty ranges |
| CDiff.LabelOnlyWhenPending | cdiff.py:182-201 | a removed line is labelled only when a range is pending, and after a bare `c` nothing is pending |
| CDiff.BinaryLeavesLineOpen | cdiff.py:153-161 | a `Binary files` message leaves its line open, closes any file body and makes the second path's side current |
| CDiff.ApplyBinary | cdiff.py:153-161 | a binary message steps the state by `OnBinary` |
| CDiff.PathLeavesLineOpen | cdiff.py:100-103 | a shortened path that does not end in a newline leaves its line open with its side current |
| CDiff.BinaryExtends | cdiff.py:153-161 | a binary message only appends to what closing the file body left |
| CDiff.OnlyInExtends | cdiff.py:163-170 | an only-in message only appends to what closing the file body left |
| CDiff.ApplyAppendOnly | cdiff.py:153-221 | no branch of the loop removes or rewrites anything already in the report |
| CDiff.MessageAppendOnly | cdiff.py:153-180 | the `Binary files`, `Only in` and `diff` header branches only append |
| CDiff.HunkAppendOnly | cdiff.py:182-221 | the `<`, `>` and `c`/`d`/`a` branches only append |
| CDiff.FilesDifferExtends | cdiff.py:172-180 | a `diff` header only appends |
| CDiff.RemovedExtends | cdiff.py:182-187 | a `<` line only appends, with or without its range label |
| CDiff.AddedExtends | cdiff.py:189-194 | a `>` line only appends, with or without its range label |
| CDiff.ChangeHeaderExtends | cdiff.py:196-199 | a `c` header only appends |
| CDiff.DeleteHeaderExtends | cdiff.py:206-212 | a `d` header only appends |
| CDiff.AppendHeaderExtends | cdiff.py:214-221 | an `a` header, echoed line included, only appends |
| CDiff.AppendRangeExtends | cdiff.py:216-218 | the start of an `a` header only appends |
| CDiff.AddExtends | cdiff.py:85-91 | `add` only appends |
| CDiff.RunExtends | cdiff.py:145-221 | the report after a prefix of the stream is a prefix of the final report |
| CDiff.OnlyInLine | cdiff.py:163-170 | an `Only in` line prints `ONLY <side> HAS THE FILE: ` and the joined, shortened path, all in the side's colour (yellow for `?`), after closing any file body |
| CDiff.AppendEchoesLine | cdiff.py:214-221 | an `a` hunk header ends its line with the A range in red and is then echoed verbatim in white on its own line |
| CDiff.ApplyAppend | cdiff.py:214-221 | an `a` header writes the header and leaves the ranges and the file state alone |
| CDiff.CompareThenEcho | cdiff.py:219-221 | the red `(compare ...)` label closes its line and the echoed line follows in white on its own |
| CDiff.ColorsOfSides | cdiff.py:13-16 | the categories `""`, `A` and `B` are white, red and cyan |
| CDiff.HeaderThenMessage | cdiff.py:153-180 | after a `diff` header opens a file body, the next `Binary`/`Only in` message is preceded by a long separator |
| QDiff.Side | qdiff.py:22-31 | `A`/red exactly when the directory is root 1, `B`/cyan exactly when it is root 2 and not root 1, else the directory itself in white |
| QDiff.HiliteLabels | qdiff.py:22-32 | the highlighted path is the side label and a slash, then the base name in bold underline, both in the side's colour |
| QDiff.HiliteNeedsExactDirectory | qdiff.py:26-31 | a file one directory below root 1 is not labelled `A`: the directory must equal the root |
| QDiff.HiliteFirstRootFirst | qdiff.py:26-29 | when both roots are the directory, `A` wins |
| QDiff.Report | qdiff.py:17-55 | the three lists and the printed lines are the two headers followed by `Run` over the stream |
| QDiff.Sort | qdiff.py:42-55 | one line updates the lists exactly as `Apply` does for its classification |
| QDiff.OneListPerLine | qdiff.py:38-55 | each line adds to at most one list, never removes anything, and prints exactly one line; an unmatched line is printed as stripped |
| QDiff.OneList | qdiff.py:42-55 | the same for one classified line |
| QDiff.RunGrows | qdiff.py:38-55 | over a stream the lists only grow and one line is printed per input line |
| QDiff.FilesLineToBoth | qdiff.py:42-44 | a `Files` line under both roots goes to `inBoth`, with the longest name that is followed by ` and <root 2>/` |
| QDiff.FilesMatched | qdiff.py:42-44 | whenever the `Files` pattern matches, the entry is its first group, which sits between the two roots in the line |
| QDiff.FilesLineOnlyBoth | qdiff.py:42-44 | a `Files` line leaves `inA` and `inB` alone and appends its name to `inBoth` |
| QDiff.OnlyInRootItself | qdiff.py:46-48 | `Only in <root 1>: n`, with no colon in `n`, is recorded as `/n` |
| QDiff.OnlyInSubdir | qdiff.py:46-48 | `Only in <root 1>/r: n`, when `": "` does not occur in `n`, is recorded in `inA` as `r/n` |
| QDiff.OnlyInSubdirB | qdiff.py:46-52 | `Only in <root 2>/r: n` is recorded in `inB` as `r/n`, when `": "` does not occur in `n` and the line does not begin with `Only in <root 1>` |
| QDiff.OnlyMatchSlash | qdiff.py:46 | the optional slash in `Only in {dir}/?` is taken whenever the rest of the pattern still matches after it |
| QDiff.OnlyMatchSubdir | qdiff.py:46-47 | on `Only in <dir>/r: n` the slash form of the pattern gives the groups `r` and `n` |
| QDiff.MatchAtLastSeparator | qdiff.py:46-47 | `pre(.*): (.*)$` on `pre + r + ": " + n` gives exactly the groups `r` and `n` when `": "` does not occur in `n` |
| QDiff.SeparatorMatch | qdiff.py:46-47 | that pattern matches such a line, with a first group at least as long as `r` and a second group that runs to the end |
| QDiff.PrefixRootLandsInA | qdiff.py:46-52 | when root 1 is a prefix of root 2, root 2's `Only in` lines go to `inA` |

## Left out

- Running `diff` (`Popen` / `os.popen`): the model takes the lines of its output as a sequence. Lines whose bytes do not decode are `None`.
- `glob.glob` is a function parameter of `PDiffArgs.ProcessDir`. `os.path.isdir(dir1)` is a boolean parameter of `Report`.
- `print` and `sys.exit`: `PDiffArgs.Parse` returns `Help`, `Usage` or `Invoke` instead of printing and exiting. The `Error:` message for an undecodable line is not part of the modelled output.
- `BrokenPipeError` and `KeyboardInterrupt` while printing, and the `--` printed for them: no I/O is modelled.
- termcolor's escape codes: `colored` is an opaque parameter. A few lemmas assume `Render.KeepsLineOpen` about it.
- The `debug` closures and `DEBUG`: they print only when the constant is on, and it is off.
- Regular expression metacharacters inside the roots: the roots are treated as literal text within the patterns.
- `.` in the patterns is modelled as matching any character. The lines are stripped, so they hold no line break.
- UTF-8 decoding itself: a line is either its decoded text or `None`.
- qdiff's text-mode decoding errors: the model takes decoded lines.
- `CDiff.Accumulator.SetColor`: the `KeyError` for a category missing from `COLORS` is a precondition. `CDiff.CategoriesAreKeys` shows that the loop never violates it.
- The module-level code of cdiff.py and qdiff.py that reads `sys.argv`, globs and strips the roots: the roots are parameters.
- The commented-out block at the end of qdiff.py: it is dead code.
- cdiff's `out_line` is identical to pdiff's and is modelled once, as `PDiff.OutLine`.
- `Strip` is modelled explicitly, with ASCII white space for the byte lines of pdiff and cdiff and Unicode white space for qdiff's text lines.
