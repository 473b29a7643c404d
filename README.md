# Reordering top-level function definitions — a verified model

`main.py` reads a source file as lines and parses it. It collects the line
span `(lineno, end_lineno)` of every top-level function definition. It then
cuts the file into blocks `(start, end, is_function)`: the function spans,
plus "filler" blocks for the lines between them. The function blocks are
shuffled among the function slots, and the filler blocks never move. Finally
the lines of every block are written out in the new block order.

This project models those four stages in Dafny as the imperative code they
are, and proves what each stage promises:

- `Extraction`: `get_function_ranges_at_level` as a loop over an abstract
  statement list (`Stmt = FunctionDef(lineno, endLineno) | Other(...)`).
- `Partition`: `get_code_blocks`, the cursor walk. Its proof shows that sorted
  ranges give blocks that tile `first_line..last_line` exactly.
- `Blocks`: the shared data types (`Range`, `Block`). Also the function and
  filler sub-sequences, and the tiling predicate with its consequence "each
  line lies in exactly one block".
- `RandomShuffle`: `random.shuffle`, written as the runtime's Fisher–Yates
  loop on an array. The random source is a parameter, so every outcome is
  covered.
- `Reorder`: `reorder_functions_relatively`, which changes an `array<Block>`
  in place. It is specified by the function `Reordered(bs, t)`: the i-th
  function slot receives `t[i]`.
- `Lines`, `Assembly`: the lines model and the write step. `Lines` holds the
  text `readlines()` returns (decoded, with `\r\n` and `\r` already
  translated to `\n`), `''.join` and reading text back as lines.
  `Assembly` holds Python list slicing and the slice-and-concatenate loops of
  `write_reordered_file`.
- `Pipeline`: the whole run composed (with the correction from "## Findings"),
  plus the end-to-end conservation lemmas.

Two points the model states as the code has them:

- One might expect filler lines to keep their line numbers. The code keeps
  each filler block at its *block index* instead. When functions of different
  lengths swap, the filler lines in between shift.
  `Pipeline.FillerLinesCanMove` shows this.
- The flag is the integer 1/0 in the source, and only ever tested for truth.
  It is a `bool` here.

## Model

| member | source | states |
|---|---|---|
| Extraction.GetFunctionRangesAtLevel | main.py:17-22 | the loop returns `FunctionRanges(body)`, at most one range per statement |
| Extraction.FunctionRangesMembership | main.py:19-21 | a span is returned iff a function definition with exactly that span is in the body |
| Extraction.FunctionRangesOfOthers | main.py:19-21 | statements that are not function definitions contribute nothing |
| Extraction.FunctionRangesOfFunctions | main.py:19-21 | a body of function definitions gives one range per definition, k-th range = k-th definition's `(lineno, end_lineno)` |
| Extraction.FunctionRangesAppend | main.py:19-21 | extraction distributes over concatenation of bodies, so source order is kept |
| Extraction.FunctionRangesSingle | main.py:20-21 | one statement contributes its span iff it is a function definition |
| Extraction.WellFormedOrdered | main.py:19-21 | statements in source order never go backwards, and a function definition is strictly separated from every other statement |
| Extraction.FunctionRangesWithin | main.py:19-21 | every range lies inside the file, and ends no later than the last statement |
| Extraction.FunctionRangesSorted | main.py:17-22 | statements in source order (each in the file, simple statements possibly sharing a line, a definition sharing its lines with no neighbour) give sorted, non-overlapping ranges inside the file |
| Partition.GetCodeBlocks | main.py:36-50 | function-flagged blocks are exactly the ranges in order; filler blocks are non-empty; no two fillers are neighbours (one filler per gap); no ranges gives one filler `first..last` or nothing when `last < first`; sorted ranges inside the interval give a tiling of it |
| Partition.WalkStep | main.py:39-45 | one iteration keeps the walk invariant: function blocks so far = ranges so far, fillers non-empty and never neighbours, the last block a function block, cursor one past the last range, tiling up to the cursor |
| Partition.WalkFinish | main.py:47-50 | the final filler for lines after the cursor keeps all the walk's guarantees and completes the tiling up to `last_line` |
| Partition.StepTiles | main.py:40-45 | for a range starting at or after the cursor, the gap filler and the function block extend the tiling to the range's end |
| Partition.StepFunctionBlocks | main.py:40-44 | an iteration adds exactly the range's block to the function blocks |
| Partition.StepFillers | main.py:40-42 | an iteration only adds a filler that is non-empty |
| Partition.TilesExtend | main.py:47-48 | a non-empty block starting right after a tiling extends it |
| Blocks.TilesCoverExactlyOnce | main.py:36-50 | in a tiling, a block holds a line iff the line is in `first..last`, and no two blocks hold the same line |
| Blocks.TilesOrdered | main.py:36-50 | in a tiling, every block ends before every later block starts |
| Blocks.TilesBounds | main.py:36-50 | every block of a tiling lies inside the interval |
| Blocks.CoveringBlockExists | main.py:36-50 | every line of the interval has a covering block, and this finds its index |
| Blocks.FunctionIndicesSpec | main.py:64-68 | the collected indices and blocks match entry for entry, increase strictly, and list every function-flagged position |
| Blocks.FunctionAndFillerSplit | main.py:64-68 | every block is exactly one of function or filler: multisets and counts add up |
| Blocks.FunctionBlocksAreFunctions | main.py:66-68 | collected blocks are function-flagged blocks of the list |
| Blocks.SameFlagsSameIndices | main.py:64-67 | the collected indices depend only on the flags |
| Blocks.SameFillers | main.py:72-73 | lists with the same flags and the same filler entries have the same filler sub-sequence |
| RandomShuffle.Shuffle | main.py:70 | the array ends up a permutation of itself; with at most one element it is unchanged |
| Reorder.FunctionSlots | main.py:62-68 | the first loop returns the function indices and the function blocks of the list, in list order |
| Reorder.AssignSlots | main.py:72-73 | the second loop leaves the array equal to the original with slot `idx[i]` set to `shuffled[i]` in turn |
| Reorder.ReorderFunctionsRelatively | main.py:62-73 | the new array is `Reordered(old, t)` for a rearrangement `t` of the old function blocks; flags per index unchanged; fillers unchanged at their index; function blocks and whole list multiset-preserved; with 0 or 1 function blocks nothing changes |
| Reorder.ScatterAt | main.py:72-73 | with strictly increasing slots, slot `idx[k]` holds `t[k]` and every other index is untouched |
| Reorder.ReorderedSlots | main.py:72-73 | reordering keeps the length and the flag at each index, and keeps every filler at its index |
| Reorder.ReorderedFunctionBlocks | main.py:72-73 | the function blocks after reordering are exactly the shuffled sequence, in slot order |
| Reorder.ReorderedFillerBlocks | main.py:72-73 | the filler sub-sequence is unchanged |
| Reorder.ReorderedIsPermutation | main.py:62-73 | the reordered list is a permutation of the original |
| Reorder.ReorderedIdentity | main.py:72-73 | writing the function blocks back in their own order changes nothing |
| Reorder.ReorderedFewFunctions | main.py:70-73 | with 0 or 1 function blocks every shuffle leaves the list as it was |
| Reorder.ReorderedSummary | main.py:62-73 | all the reorder guarantees together |
| Reorder.WriteBackIsReorder | main.py:70-73 | writing a permutation of the collected blocks back into the collected slots meets every reorder guarantee |
| Assembly.SliceBound | main.py:79 | a slice bound is normalised into `0..n`; an in-range bound is unchanged |
| Assembly.PySlice | main.py:79 | a slice is no longer than the list and holds only its elements |
| Assembly.BlockLines | main.py:79 | a block inside the file gives exactly its lines `lines[start-1:end]`; any block gives only lines of the file |
| Assembly.WriteReorderedFile | main.py:75-83 | the text written is the join of the blocks' slices in block order; blocks that tile the file in order rewrite it unchanged |
| Assembly.AssembleAppend | main.py:78-79 | the lines of a concatenation of block lists are the concatenated lines |
| Assembly.AssembleElements | main.py:78-79 | only original lines appear in the output |
| Assembly.AssembleWithin | main.py:78-79 | blocks within the first `m` lines output only lines from among them |
| Assembly.AssembleTiling | main.py:78-79 | blocks tiling `first..last` reproduce exactly `lines[first-1:last]` |
| Assembly.AssembleTilingFile | main.py:78-83 | blocks tiling `1..len(lines)` reproduce `lines` |
| Assembly.AssemblePermutation | main.py:78-79 | rearranging the blocks rearranges the output lines (multiset equal) |
| Lines.FirstLineLength | main.py:87 | the first line of a text runs up to and including its first newline, or to the end |
| Lines.ReadLines | main.py:87 | `readlines()` cuts a text into lines of the `readlines()` shape that join back to the text |
| Lines.ReadLinesCons | main.py:87 | a terminated line (or a lone line) before a `readlines()` result keeps that shape |
| Lines.TerminateLines | main.py:87-99 | adds a newline to the last line when missing: same number of lines, all but the last unchanged, the last equal or with `\n` added, and ending with a newline |
| Lines.TerminatedLines | main.py:87-99 | after terminating, every line of a `readlines()` result ends with its newline |
| Lines.TerminatedText | main.py:87-99 | terminating changes the text at most by one final newline |
| Lines.JoinAppend | main.py:83 | `''.join` of a concatenation is the concatenation of the joins |
| Lines.JoinCons | main.py:83 | `''.join` of a line followed by a list is the line followed by the join of the list |
| Lines.FirstLineOf | main.py:87 | reading text that starts with a terminated line returns that line first |
| Lines.ReadLinesOfLine | main.py:87 | a single line reads back as itself |
| Lines.ReadLinesJoin | main.py:87-89 | reading back the join of `readlines()`-shaped lines gives the same lines |
| Lines.TerminateLinesSpec | main.py:87-89 | after adding a missing final newline every line is terminated, and the text changes only by that newline |
| Lines.TerminatedBeforeReadLines | main.py:83-87 | terminated lines followed by a `readlines()` result keep the `readlines()` shape |
| Lines.AllTerminatedAreReadLines | main.py:87 | a list of terminated lines has the shape `readlines()` returns |
| Pipeline.ReorderedLinesArePermutation | main.py:78-83 | reordering the blocks of a tiled file outputs as many lines as the input, with the same multiset |
| Pipeline.FewFunctionsRewriteUnchanged | main.py:70-83 | a file with at most one function block is written back unchanged |
| Pipeline.FillerLinesCanMove | main.py:62-83 | a filler line between two functions of different length moves from line 3 to line 2 when they swap |
| Pipeline.SwappedAroundFillerLines | main.py:78-79 | in that four-line file, the swapped blocks output the fourth line, the third, then the first two |
| Pipeline.ReorderedAroundFiller | main.py:62-73 | swapping the two functions around a filler gives function, filler, function with the functions exchanged |
| Pipeline.ReorderedPair | main.py:62-73 | swapping two adjacent function blocks gives them in the other order |
| Pipeline.SwappedPairLines | main.py:78-79 | with two one-line blocks swapped, the output lines are the input lines swapped |
| Pipeline.SwappedPairText | main.py:78-83 | with two one-line blocks swapped, the written text is the second line then the first |
| Pipeline.JoinPair | main.py:83 | `''.join` of two strings is their concatenation |
| Pipeline.GluedLines | main.py:83 | a line with no newline followed by a terminated line reads back as a single line |
| Pipeline.UnterminatedLastLineMerges | main.py:75-89 | when the file's last line has no newline and the two one-line functions swap, the output reads back as one line, not two |
| Pipeline.TerminatedOutputReadsBack | main.py:75-89 | with every line terminated, the written text reads back as exactly the reordered lines: as many as the input, and a rearrangement of them |
| Pipeline.KeptLastReadsBack | main.py:78-87 | while the block holding the last line is written last, the written text reads back as exactly the rearranged lines, even when that last line has no newline |
| Pipeline.CorrectedRun | main.py:75-89 | the corrected write reads back as many lines as the input: the input lines rearranged while the last line's block stays last, else the rearranged lines with the missing final newline added; with at most one function block it writes the input text itself |
| Pipeline.CodeBlocksOfFile | main.py:92-95 | for a well-formed body over lines 1 to `last`, the code blocks tile lines 1 to `last`, and their function blocks are exactly the body's top-level definition ranges, in order |
| Pipeline.ReorderCodeBlocks | main.py:97 | the list of code blocks after the in-place reorder is `Reordered(codeBlocks, t)` for some rearrangement `t` of its function blocks |
| Pipeline.ReorderFile | main.py:86-99 | a whole run writes exactly `Join(Assemble(CorrectedLines(lines, cb, Reordered(cb, t)), Reordered(cb, t)))` for code blocks `cb` that tile the file with the body's definition ranges as their function blocks and some rearrangement `t` of those blocks; the text reads back as many lines as the input, a rearrangement of the input lines or (when the unterminated last line's block moved) of the lines with that newline added; with at most one function it writes the input text byte for byte |

## Left out

- Parsing (`ast.parse`, main.py:90) is not modelled. The caller supplies the top-level statements as `Stmt` values with their line spans, and `WellFormedBody` states the ordering a parser guarantees: statements never go backwards, simple statements may share a line (`x = 1; y = 2`), and a function definition shares its lines with no neighbour. For a decorated function, Python 3.8 and later report the `def` line as `lineno`, so the decorator lines are not in the function's range. They fall into the filler block before it, which stays in place while the function moves away from them. The model takes `lineno` as given and so has the same behaviour.
- Async function definitions and classes are `Other` statements, as `isinstance(node, ast.FunctionDef)` excludes them. Nested functions are not visited, because only `parent.body` is traversed.
- File I/O is not modelled: `open`, `readlines`, `file.write` and the `with` blocks (main.py:81-83, main.py:86-89). The lines are given as a sequence of strings. The written file is the single string the successive `file.write` calls produce. `Lines.ReadLines` models reading a text back as lines. The text throughout is the decoded text after text-mode newline translation: `open()` turns `\r\n` and a lone `\r` into `\n` before `readlines()` sees it, and on writing turns each `\n` into `os.linesep`. The written text in the model is the text before that translation. "Written back unchanged" therefore holds of the decoded text; on POSIX systems, where `os.linesep` is `\n`, a file with `\r\n` line endings comes out with `\n` endings, and on Windows every line comes out ending in `\r\n`. Encodings are not modelled.
- Pipeline.ReorderFile: its multiset ensures is a disjunction: the read-back lines are the input lines, or the input lines with the missing final newline added, rearranged. It does not say which disjunct holds, because the shuffle that decides it is internal to the run. The method also ensures that the written text is the corrected assembly of `Reordered(cb, t)` for its code blocks `cb` and shuffle `t`, so a caller can apply `Pipeline.CorrectedRun` to those witnesses to learn which: the newline is added exactly when the block holding the last line is no longer written last.
- The hard-coded file names (main.py:4, 99) and the commented-out `print` calls are left out.
- RandomShuffle.Shuffle: the random source is a function `randBelow` that answers below its bound. Whether the shuffle is uniform (main.py:70) cannot be stated and is not claimed. The contract promises only a permutation.
- Reorder.ReorderFunctionsRelatively: the body of the source function is modelled by two helper methods, `FunctionSlots` (the first loop) and `AssignSlots` (the second loop), around the shuffle. The behaviour and the in-place update of the one array are the same.
- Blocks.Block: the integer flag `1`/`0` is a `bool`, because the source only tests it for truth.
- Output line numbers of the filler lines: one might expect fillers to keep their absolute line positions. The code does not do that, and no member claims it. `Pipeline.FillerLinesCanMove` shows a case where a filler line moves.

## Findings

| source | as written | input that shows it | evidently intended | confidence | as-written member | corrected member |
|---|---|---|---|---|---|---|
| main.py:78-83 | blocks are joined with `''.join`, and the last line of the file keeps whatever terminator `readlines()` gave it, possibly none | the lines `["def f(): pass\n", "def g(): pass"]` (no final newline); the shuffle swaps the two function blocks; the written text `"def g(): passdef f(): pass\n"` reads back as one line | the output file holds the input lines, rearranged | not executed; follows from the slicing and `''.join` semantics | Pipeline.UnterminatedLastLineMerges | Pipeline.ReorderFile (with Pipeline.CorrectedLines, Pipeline.CorrectedRun and Lines.TerminateLines) |

The corrected run (`Pipeline.CorrectedLines`) adds a newline to an
unterminated last line only when that line's block is no longer written last,
which is the only case where `''.join` glues it to the next line
(`Lines.TerminateLines`). Then the written text reads back as exactly the
rearranged lines: the input's own lines when the last block stays last
(`Pipeline.KeptLastReadsBack`), and otherwise the lines with that one newline
added (`Pipeline.TerminatedOutputReadsBack`). A file with at most one
function is written back exactly as it was read.