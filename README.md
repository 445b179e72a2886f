# Sequential-NIAH needle splicing and perturbation, in Dafny

This project models the text engine behind the Sequential-NIAH benchmark builders. The model covers three scripts.

- `Sequential_NIAH_building_PPL.py` takes a long document and a list of needle sentences.
  - It shuffles the needles.
  - It cuts the document after randomly drawn sentence terminators (`'。'` for Chinese, `'.'` for English).
  - It splices each needle, wrapped as `"\n" + needle + "\n"`, into one cut.
  - It wraps the spliced document in a prompt: a document prefix, then the document, then `"\n\n"`, a question prefix and the question.
- `Sequential_NIAH_building_PPL_with_noise.py` splits a finished record back into shards. It removes every wrapped needle (`cut_str_by_needles`) and trusts the split only when the shards concatenate to the raw document (`check_raw_long_text`). It then perturbs the record in three ways:
  - a *little move* shifts each needle to a terminator inside a small index box around its old cut (`check_moving_idx_box`);
  - a *large move* draws fresh sorted cuts;
  - a *reordering* reshuffles the needles until their order differs from the original.
- `Sequential_NIAH_building_PPL_with_sem_noise.py` splits records the same way. It then inserts "semantic noise" sentences after a random terminator inside randomly chosen shards, and splices the needles back in (`insert_needles_to_text_new`).

Every perturbation works in two coordinate frames at once:
- the document (`text_with_needles`);
- the whole prompt (`input`), where the document starts at offset `start_idx`.

A cut `c` in the document is reused as `c + start_idx` in the prompt. The central law of the model is that the prompt result is always the prefix, then the document result, then the suffix. It is proved for the splice shared by all three scripts (`SpliceTwoFrames`, `PromptFrames`). For the moves it is proved whenever the prompt shards join to `P + D + S` (`GenMovedFrames`, `LittleMoveFrames`, `LargeMoveFrames`) and for one noise insertion (`InsertAfterPeriodFrames`). For the reordering and the noise splice it is proved only when the prompt shards are the document shards with `P` on the first and `S` on the last (`ReorderFrames`, `NoiseSpliceFrames`).

Layout:

- `text_basics.dfy` (module `TextBasics`) holds the shared building blocks:
  - languages, terminators and the error kinds;
  - the terminator scan;
  - sorting a sample;
  - Python's slice-based shard cutting;
  - the splice (`Interleave`) and its newline-join form (`Alternate`);
  - embedding a text between a prefix and a suffix.
- `needle_split.dfy` (`NeedleSplit`) models Python's `str.replace` and `str.split`, `cut_str_by_needles` and `check_raw_long_text`, and proves the round trip. These two functions are identical in the two noise scripts, so one model serves both.
- `niah_build.dfy` (`NiahBuild`) models `insert_strings_to_random_position` and the prompt assembly of `build_data`.
- `noise_moves.dfy` (`NoiseMoves`) models:
  - `insert_needles_to_text`, `check_moving_idx_box` and `gen_moved_text`;
  - the little and large moves;
  - the reordering branch of the noise driver.
- `sem_noise.dfy` (`SemNoise`) models `insert_after_random_period` and `insert_needles_to_text_new`.

Conventions:

- **Random draws are parameters.** Each draw of `random.sample`, `random.choice` or `random.shuffle` is an extra parameter. A `requires` (for example `SampleFits`, `PicksFit`, `TargetsFit`, `AllPermutations`) says the draw is one the library could return.
- **Exceptions are `Err` values.** Each `raise`, failing `assert`, failing `.index` and `random.choice` on an empty list returns an `Err` of type `Result`, with one `Error` constructor per kind of failure; one kind may arise at several places (`EmptyBox` for both the `[-1]` on an empty box and `random.choice` on one, `SampleTooLarge` for every `random.sample`). `ShardCountMismatch` is the failed `assert len(...) == len(needles) + 1`, and `FrameCountMismatch` is the failed `assert len(input_text_list) == len(text_list)`.
- **A loop that never stops is `DrawsExhausted`.** The reordering reshuffles until the order differs. When every given draw equals the original order, the source would keep shuffling; the model returns `Err(DrawsExhausted)`. The source raises nothing there.
- **The imperative code keeps its form.** Each loop of the scripts is a `method` with loop invariants, proved equal to a specification function. These methods are `InsertStringsToRandomPosition`, `CutShards`, `SpliceShards`, `CutStrByNeedles`, `CutLoop`, `BoxLoop`, `ExcludeLoop`, `PickLoop`, `GenMovedText`, `ShuffleUntilDifferent`, `NoiseLoop` and others. The lemmas are stated about the specification functions.
- **Python's dictionary order is kept.** `index_boxes` is a `map` plus the list of its keys in insertion order (`FirstOccurrences`), because the little move walks `index_boxes.values()` in that order.
- **Slices follow Python.** Slice bounds are clamped as Python clamps them (`ListSlice`, `PyShards`), so unsorted or repeated cuts behave as in the source.

The following quirks of the source are modelled as written:

- The overlap branch of `check_moving_idx_box` cuts the current box with the upper bound `id+3`. The other branches use `id+3+1`.
- The overlap branch re-slices the previous box from `max(prev-3, 0)`, which discards an earlier re-cut. As a result, the boxes of two adjacent cuts can overlap after a later re-cut: for cuts on slots 5, 6 and 7 the boxes of 5 and 6 are slots 2–6 and 3–7 (`OverlapReachesBack`). The same happens end to end: twenty `'.'` split after 6, 7 and 8 characters give exactly those cuts (`OverlapShardsCuts`, `OverlapRun`). The little move can then produce cuts out of order (`LittleMoveUnsorted`).
- Whenever the last two terminators of a document are both cuts, the last box is empty (`FinalBoxEmpty`). The little move then raises, whatever the draws (`LittleMoveEmptyBox`).
- The large move has no 80-terminator minimum (`LargeMoveErrors`).

## Model

| member | source | states |
|---|---|---|
| TextBasics.PeriodPositions | Sequential_NIAH_building_PPL.py:20-23 | the scan returns at most one position per character; `PeriodPositionsSpec` states what those positions are |
| TextBasics.PeriodPositionsSpec | Sequential_NIAH_building_PPL.py:20-23 | the positions are strictly increasing, each holds the language's terminator, and every terminator index is among them |
| TextBasics.PyShards | Sequential_NIAH_building_PPL.py:37-40 | `k` cuts give `k + 1` shards |
| TextBasics.CutShards | Sequential_NIAH_building_PPL.py:37-40 | the shard loop over consecutive bounds of `[-1] + cuts + [len-1]` yields exactly the Python-slice shards |
| TextBasics.ShardsConcat | Sequential_NIAH_building_PPL.py:37-42 | for strictly increasing cuts inside the text, the shards concatenate back to the text |
| TextBasics.ShardEndsAtCut | Sequential_NIAH_building_PPL.py:37-40 | every shard but the last is non-empty and ends with the character at its cut |
| TextBasics.TerminatedShards | Sequential_NIAH_building_PPL.py:37-42 | when every cut is a terminator, every shard but the last ends with a terminator |
| TextBasics.SpliceShards | Sequential_NIAH_building_PPL.py:43-46 | the `new_text +=` accumulation loop yields shard0, wrapped needle0, shard1, … , last shard |
| TextBasics.InterleaveLength | Sequential_NIAH_building_PPL.py:43-47 | the splice is as long as the shards plus the sum of `len(needle) + 2` over the needles |
| TextBasics.InsertSorted | Sequential_NIAH_building_PPL.py:36 | inserting a new value into an ascending list keeps it ascending and adds exactly that value |
| TextBasics.Sorted | Sequential_NIAH_building_PPL.py:36 | `insert_position.sort()` on distinct positions gives an ascending permutation of them |
| TextBasics.SampleSorted | Sequential_NIAH_building_PPL.py:34-36 | a sorted sample is `n` strictly increasing terminator positions, a permutation of the sample |
| TextBasics.Alternate | Sequential_NIAH_building_PPL_with_noise.py:27-32 | `str_list` for `k` needles has `2k + 1` entries |
| TextBasics.JoinAlternate | Sequential_NIAH_building_PPL_with_noise.py:23-34 | `'\n'.join` of the alternating list equals the accumulation-loop splice |
| TextBasics.InterleaveEmbed | Sequential_NIAH_building_PPL_with_noise.py:137-140 | splicing shards whose first has a prefix and whose last has a suffix gives prefix + splice + suffix |
| TextBasics.ShardsEmbed | Sequential_NIAH_building_PPL_with_noise.py:137-140 | cutting `P + D + S` at the document cuts shifted by `len(P)` gives the document's shards with `P` on the first and `S` on the last, for any cuts |
| TextBasics.SpliceTwoFrames | Sequential_NIAH_building_PPL_with_noise.py:137-140 | the prompt spliced at the shifted cuts is `P` + the spliced document + `S` |
| NeedleSplit.Split | Sequential_NIAH_building_PPL_with_noise.py:13 | `split` always returns at least one piece |
| NeedleSplit.ReplaceFree | Sequential_NIAH_building_PPL_with_noise.py:11 | `replace` leaves a text without occurrences unchanged |
| NeedleSplit.ReplaceHit | Sequential_NIAH_building_PPL_with_noise.py:11 | the first occurrence is replaced and the scan resumes after it |
| NeedleSplit.SplitFree | Sequential_NIAH_building_PPL_with_noise.py:13 | `split` of a text without the separator is that text alone |
| NeedleSplit.SplitHit | Sequential_NIAH_building_PPL_with_noise.py:13 | the part before the first separator is split off and the split resumes after it |
| NeedleSplit.ReplaceStage | Sequential_NIAH_building_PPL_with_noise.py:11 | one `replace` pass turns exactly the gaps holding that needle into the marker |
| NeedleSplit.ReplaceEachStage | Sequential_NIAH_building_PPL_with_noise.py:10-11 | after the first `j` needles are replaced, the gaps of those needles are markers and the others still hold their wrapped needles |
| NeedleSplit.CutStrByNeedles | Sequential_NIAH_building_PPL_with_sem_noise.py:16-20 | the loop of rebinding replacements followed by the split computes `CutByNeedles` |
| NeedleSplit.RoundTrip | Sequential_NIAH_building_PPL_with_noise.py:9-14 | splitting a splice on its needles gives back the shards, when shards and needles are `Clean` |
| NeedleSplit.CheckAfterRoundTrip | Sequential_NIAH_building_PPL_with_noise.py:16-21 | for `Clean` shards and needles, the check on the split splice succeeds exactly when the shards concatenate to the raw document |
| NeedleSplit.ReplaceAll | Sequential_NIAH_building_PPL_with_noise.py:11 | replacing a pattern by itself gives the text back, and a replacement of the same length keeps the length; `ReplaceFree` and `ReplaceHit` give the full meaning |
| NeedleSplit.CutByNeedles | Sequential_NIAH_building_PPL_with_noise.py:9-14 | the split gives at least one shard; with no needles and no `[CHAT_SEP]` in the text, the text comes back as the only shard |
| NeedleSplit.CheckRawLongText | Sequential_NIAH_building_PPL_with_noise.py:16-21 | an accepted document starts with the first shard; an empty shard list is accepted only for an empty document |
| NiahBuild.InsertStringsToRandomPosition | Sequential_NIAH_building_PPL.py:19-47 | the imperative function computes `Placement`: the three errors, or the splice at the sorted sampled terminators |
| NiahBuild.PlacementErrors | Sequential_NIAH_building_PPL.py:25-35 | no terminator, 1 to 80 terminators, and more needles than terminators are each an error, and they are the only errors |
| NiahBuild.PlacementShards | Sequential_NIAH_building_PPL.py:31-46 | a success saw at least 81 terminators; its `len(strings) + 1` shards concatenate to the document, each but the last ends in a terminator, and the result is their splice |
| NiahBuild.PlacementLength | Sequential_NIAH_building_PPL.py:43-47 | the document grows by exactly the sum of `len(needle) + 2` |
| NiahBuild.PlacementNoNeedles | Sequential_NIAH_building_PPL.py:34-47 | with no needles a success returns the document unchanged |
| NiahBuild.PlacementRoundTrip | Sequential_NIAH_building_PPL.py:37-47 | on clean shards, `cut_str_by_needles` recovers the shards of a placement and `check_raw_long_text` accepts them |
| NiahBuild.DocPrefixes | Sequential_NIAH_building_PPL.py:66-77 | five document prefixes per language, the last of them empty, so the prompt may start with the document itself |
| NiahBuild.QuestionPrefixes | Sequential_NIAH_building_PPL.py:66-77 | five question prefixes per language, none of them empty |
| NiahBuild.BuildData | Sequential_NIAH_building_PPL.py:54-96 | errors propagate; on success the prompt is doc prefix + spliced text + `"\n\n"` + question prefix + question, with the spliced text at the prefix's length; `needles` is a permutation of `raw_needles`; `num_needles` is its length |
| NiahBuild.PromptFrames | Sequential_NIAH_building_PPL.py:62-77 | prefix + placement + rest of prompt equals splicing the unspliced prompt at the cuts shifted by the prefix length |
| NoiseMoves.InsertNeedlesToText | Sequential_NIAH_building_PPL_with_noise.py:23-34 | a shard count other than needles + 1 fails the assertion; otherwise the result is the newline join of the alternating list |
| NoiseMoves.InsertNeedlesIsSplice | Sequential_NIAH_building_PPL_with_noise.py:23-34 | that join is the same splice as the accumulation loop |
| NoiseMoves.CutIndices | Sequential_NIAH_building_PPL_with_noise.py:44-48 | one cut per shard but the last |
| NoiseMoves.CutLoop | Sequential_NIAH_building_PPL_with_noise.py:44-48 | the running-length loop computes `CutIndices` |
| NoiseMoves.CutEndsShard | Sequential_NIAH_building_PPL_with_noise.py:44-48 | each cut is the index, in the joined text, of the last character of its shard |
| NoiseMoves.IndexOf | Sequential_NIAH_building_PPL_with_noise.py:50 | `list.index` returns the first position holding the value |
| NoiseMoves.Indices | Sequential_NIAH_building_PPL_with_noise.py:50 | the lookups succeed exactly when every cut is a terminator position, giving an index into the positions for each cut |
| NoiseMoves.BoxStep | Sequential_NIAH_building_PPL_with_noise.py:53-71 | one iteration adds the current cut as a key and no other; it fails only on an empty previous box |
| NoiseMoves.FreshStep | Sequential_NIAH_building_PPL_with_noise.py:59-61 | without overlap the iteration succeeds; the box of the current cut is the run of terminator slots from `max(id-3,0)` through `id+3`, cut at the end of the list; it holds the cut's own terminator; every other box is unchanged |
| NoiseMoves.RecutStep | Sequential_NIAH_building_PPL_with_noise.py:62-68 | with overlap the iteration succeeds; the previous box becomes the slot run from `max(prev-3,0)` through `bound_id`; the current box is the run from `bound_id+1` through `id+2`, whose upper end `id+2` is one slot below a fresh box's `id+3`; every other box is unchanged |
| NoiseMoves.StepSeparates | Sequential_NIAH_building_PPL_with_noise.py:54-68 | right after each later iteration, every element of the previous box is below every element of the current box |
| NoiseMoves.BoxesUpTo | Sequential_NIAH_building_PPL_with_noise.py:52-71 | after `n` iterations the keys are the first `n` cuts; the only error is an empty previous box |
| NoiseMoves.BoxStepWithin | Sequential_NIAH_building_PPL_with_noise.py:53-71 | one iteration keeps every box inside the terminator positions |
| NoiseMoves.BoxStepAscending | Sequential_NIAH_building_PPL_with_noise.py:53-71 | one iteration keeps every box ascending |
| NoiseMoves.BoxesUpToWithin | Sequential_NIAH_building_PPL_with_noise.py:52-71 | every built box holds terminator positions only |
| NoiseMoves.BoxesUpToAscending | Sequential_NIAH_building_PPL_with_noise.py:52-71 | every built box is ascending |
| NoiseMoves.SetItem | Sequential_NIAH_building_PPL_with_noise.py:61 | `d[key] = box` updates the map and appends the key to the insertion order only when it is new |
| NoiseMoves.FirstOccurrencesMembers | Sequential_NIAH_building_PPL_with_noise.py:52-71 | the dictionary's key order lists every cut exactly once |
| NoiseMoves.FirstOccurrencesDistinct | Sequential_NIAH_building_PPL_with_noise.py:52-71 | distinct cuts are their own key order |
| NoiseMoves.BoxIteration | Sequential_NIAH_building_PPL_with_noise.py:54-71 | one pass of the loop body computes `BoxStep` and keeps the insertion order |
| NoiseMoves.BoxLoop | Sequential_NIAH_building_PPL_with_noise.py:52-71 | the box loop computes `BoxesUpTo` over all cuts, with the keys in insertion order |
| NoiseMoves.Without | Sequential_NIAH_building_PPL_with_noise.py:76 | filtering never lengthens a box |
| NoiseMoves.WithoutMembers | Sequential_NIAH_building_PPL_with_noise.py:76 | filtering drops the key and keeps every other element |
| NoiseMoves.ExcludeOwn | Sequential_NIAH_building_PPL_with_noise.py:73-76 | a box of at most one element is kept; a longer box loses exactly its own cut |
| NoiseMoves.ExcludeLoop | Sequential_NIAH_building_PPL_with_noise.py:73-76 | the in-place exclusion loop over the keys in order computes `Exclude` |
| NoiseMoves.CheckMovingIdxBox | Sequential_NIAH_building_PPL_with_noise.py:36-78 | the imperative function computes `MovingBoxes` |
| NoiseMoves.MovingBoxesErrors | Sequential_NIAH_building_PPL_with_noise.py:50-71 | it raises at the lookups exactly when some cut is not a terminator, and otherwise only on an empty box |
| NoiseMoves.MovingBoxesKeys | Sequential_NIAH_building_PPL_with_noise.py:52-78 | the keys are the cuts, each once, in the dictionary's order; the returned cuts are `cut_idx_list` |
| NoiseMoves.MovingBoxesOrder | Sequential_NIAH_building_PPL_with_noise.py:52-78 | with increasing cuts the key order is the cut order |
| NoiseMoves.MovingBoxesTerminators | Sequential_NIAH_building_PPL_with_noise.py:38-76 | every box element is a terminator index of the joined text |
| NoiseMoves.MovingBoxesExclusion | Sequential_NIAH_building_PPL_with_noise.py:73-76 | boxes of at most one element are unchanged; longer boxes lose their own cut and keep everything else |
| NoiseMoves.OverlapReachesBack | Sequential_NIAH_building_PPL_with_noise.py:62-68 | for cut slots 5, 6, 7 the boxes of 5 and 6 are slots 2–6 and 3–7, which overlap |
| NoiseMoves.ExcludeOverlap | Sequential_NIAH_building_PPL_with_noise.py:73-76 | the exclusion pass on those boxes removes 5 and 6 from their own boxes |
| NoiseMoves.FinalBoxEmpty | Sequential_NIAH_building_PPL_with_noise.py:36-78 | for every document and cut list that `check_moving_idx_box` accepts, if the last two cuts are the last two terminators, the returned box of the last cut is empty |
| NoiseMoves.FinalBoxEmptyCuts | Sequential_NIAH_building_PPL_with_noise.py:50-71 | the same on the box loop's own inputs, before the exclusion pass |
| NoiseMoves.FinalBoxEmptySlots | Sequential_NIAH_building_PPL_with_noise.py:52-71 | when the last two indices are the last two slots, the box loop leaves the last box empty |
| NoiseMoves.LastStepEmpty | Sequential_NIAH_building_PPL_with_noise.py:62-68 | if the previous box reaches the last terminator and the last two cuts take the last two slots, the iteration takes the overlap branch and gives the current cut an empty box |
| NoiseMoves.OwnBoxReachesEnd | Sequential_NIAH_building_PPL_with_noise.py:59-68 | a cut within three slots of the end gets a box that, if non-empty, ends with the last terminator |
| NoiseMoves.LastTwoSlots | Sequential_NIAH_building_PPL_with_noise.py:50 | `period_positions.index` maps the last two terminators to the last two slots |
| NoiseMoves.GenMovedText | Sequential_NIAH_building_PPL_with_noise.py:80-94 | the join, shard loop, assertion and accumulation loop compute `GenMoved` |
| NoiseMoves.GenMovedIsSplice | Sequential_NIAH_building_PPL_with_noise.py:80-94 | for increasing cuts inside the text, the shards concatenate back to it and the moved text is `insert_needles_to_text` of those shards |
| NoiseMoves.GenMovedFrames | Sequential_NIAH_building_PPL_with_noise.py:113-116 | on a prompt that joins to `P + D + S`, moving at the cuts shifted by `len(P)` gives `P` + the moved document + `S` |
| NoiseMoves.LittleCuts | Sequential_NIAH_building_PPL_with_noise.py:109-113 | it fails exactly when some box is empty; otherwise there is one cut per box, in key order, each from its own box |
| NoiseMoves.PickLoop | Sequential_NIAH_building_PPL_with_noise.py:107-113 | the loop appends the chosen cuts, and the prompt list receives the same cuts shifted by `start_idx` |
| NoiseMoves.MakeLittleMoving | Sequential_NIAH_building_PPL_with_noise.py:97-118 | the imperative function computes `LittleMoving` |
| NoiseMoves.LittleMoveCuts | Sequential_NIAH_building_PPL_with_noise.py:105-116 | on success, each new cut comes from its box, in key order, and is a terminator of the document; there is one per needle; the new document is their splice |
| NoiseMoves.LittleMoveFrames | Sequential_NIAH_building_PPL_with_noise.py:113-116 | when the prompt shards join to `P + D + S` with `len(P) == start_idx`, the new prompt is `P` + the new document + `S` |
| NoiseMoves.LittleMoveUnsorted | Sequential_NIAH_building_PPL_with_noise.py:105-113 | on the boxes `check_moving_idx_box` builds for twenty `'.'` split after 6, 7 and 8 characters, legal picks give the cuts 6, 3, 8, which are out of order |
| NoiseMoves.DotsPositions | Sequential_NIAH_building_PPL_with_noise.py:38-42 | every character of a run of `'.'` is a terminator position |
| NoiseMoves.OverlapShardsCuts | Sequential_NIAH_building_PPL_with_noise.py:36-48 | the shards of lengths 6, 1, 1 and 12 join to twenty `'.'` and give the cuts 5, 6, 7 |
| NoiseMoves.OverlapRun | Sequential_NIAH_building_PPL_with_noise.py:36-78 | on those shards `check_moving_idx_box` returns the boxes 5: `[2,3,4,6]`, 6: `[3,4,5,7]`, 7: `[8,9]`, so the boxes of 5 and 6 span the overlapping slots 3–6 before the exclusion and still share 3 and 4 after it |
| NoiseMoves.LittleMoveEmptyBox | Sequential_NIAH_building_PPL_with_noise.py:97-113 | with matching counts, on any document whose last two terminators are both cuts, the little move raises, whatever the draws |
| NoiseMoves.LittleCutsEmpty | Sequential_NIAH_building_PPL_with_noise.py:109-111 | an empty box among the keys makes `random.choice` raise |
| NoiseMoves.MakeLargeMoving | Sequential_NIAH_building_PPL_with_noise.py:121-142 | the imperative function computes `LargeMoving` |
| NoiseMoves.LargeMoveErrors | Sequential_NIAH_building_PPL_with_noise.py:125-135 | it fails exactly on a shard-count mismatch or on more needles than terminators; there is no 80-terminator minimum |
| NoiseMoves.LargeMoveCuts | Sequential_NIAH_building_PPL_with_noise.py:128-140 | the cuts are one strictly increasing terminator position per needle; the shards concatenate to the document; the new document is their splice, equal to the newline-join form, and grows by the sum of `len(needle) + 2` |
| NoiseMoves.LargeMoveFrames | Sequential_NIAH_building_PPL_with_noise.py:137-140 | the new prompt is `P` + the new document + `S` |
| NoiseMoves.ShuffleUntilDifferent | Sequential_NIAH_building_PPL_with_noise.py:184-186 | the shuffle loop stops at the first draw that differs from the anchor |
| NoiseMoves.ReorderPermutes | Sequential_NIAH_building_PPL_with_noise.py:184-186 | a reordering that stops is a permutation of the anchor needles that differs from them |
| NoiseMoves.SameOrderIsAnchor | Sequential_NIAH_building_PPL_with_noise.py:184-185 | every permutation of equal needles is the anchor itself |
| NoiseMoves.DifferentOrderExists | Sequential_NIAH_building_PPL_with_noise.py:184-185 | a permutation different from the anchor exists exactly when two needles differ |
| NoiseMoves.AllSameNeverStops | Sequential_NIAH_building_PPL_with_noise.py:184-186 | with all needles equal no shuffle ends the loop |
| NoiseMoves.MakeReordering | Sequential_NIAH_building_PPL_with_noise.py:184-188 | the reordering branch stops at the first different shuffle and re-splices both shard lists with it; when no given shuffle differs it returns `DrawsExhausted` |
| NoiseMoves.ReorderFrames | Sequential_NIAH_building_PPL_with_noise.py:187-188 | on prompt shards that embed the document shards, the reordered prompt is `P` + the reordered document + `S`, and the document is the splice |
| SemNoise.PeriodPickIsChoice | Sequential_NIAH_building_PPL_with_sem_noise.py:237-244 | the pick is a member of the scanned terminator list whenever that list is not empty |
| SemNoise.SpliceAtInside | Sequential_NIAH_building_PPL_with_sem_noise.py:246-247 | inside the text, the slice-and-concatenate splice is prefix + wrapped noise + suffix |
| SemNoise.InsertAfterRandomPeriod | Sequential_NIAH_building_PPL_with_sem_noise.py:234-248 | it raises exactly when the document shard holds no terminator, and then with `NoPeriods` |
| SemNoise.InsertAfterPeriodKeeps | Sequential_NIAH_building_PPL_with_sem_noise.py:244-248 | on success each result keeps every character of its shard and gains exactly the wrapped noise |
| SemNoise.InsertAfterPeriodErrors | Sequential_NIAH_building_PPL_with_sem_noise.py:236-242 | it raises exactly when the document shard holds no terminator; the prompt shard is not scanned |
| SemNoise.InsertAfterPeriodOk | Sequential_NIAH_building_PPL_with_sem_noise.py:244-247 | on success the pick is a terminator, the prompt shard is spliced at `pick + start_idx + 1`, and the document shard at `pick + 1` |
| SemNoise.InsertAfterPeriodDoc | Sequential_NIAH_building_PPL_with_sem_noise.py:244-247 | `result_2` grows by `len(noise) + 2` and keeps the terminator; the wrap follows it; cutting the wrap out gives the shard back |
| SemNoise.InsertAfterPeriodFrames | Sequential_NIAH_building_PPL_with_sem_noise.py:246-247 | if `input_text = P + text + S` with `len(P) == start_idx`, then `result_1 = P + result_2 + S` |
| SemNoise.NoiseDictAt | Sequential_NIAH_building_PPL_with_sem_noise.py:260 | with distinct targets, the dictionary maps the k-th target to the k-th noise sentence and has no other key |
| SemNoise.NoisyAll | Sequential_NIAH_building_PPL_with_sem_noise.py:262-271 | a pass over `n` shards yields `n` shards in each frame |
| SemNoise.Weave | Sequential_NIAH_building_PPL_with_sem_noise.py:270-275 | `str_list` holds at least every shard |
| SemNoise.NoiseStep | Sequential_NIAH_building_PPL_with_sem_noise.py:263-275 | one iteration fails exactly when the pass fails at that shard, and otherwise extends both `str_list`s to the weave of one more shard |
| SemNoise.NoiseLoop | Sequential_NIAH_building_PPL_with_sem_noise.py:262-275 | the loop yields the error of the pass, or the two weaves of the noisy shards with the needles |
| SemNoise.InsertNeedlesToTextNew | Sequential_NIAH_building_PPL_with_sem_noise.py:250-279 | the imperative function computes `NoiseSplice` |
| SemNoise.NoisyAllAt | Sequential_NIAH_building_PPL_with_sem_noise.py:262-271 | shard `i` of a successful pass is what the loop body makes of shard `i` |
| SemNoise.NoisyAllErr | Sequential_NIAH_building_PPL_with_sem_noise.py:264-268 | the pass fails exactly when some target shard has no terminator |
| SemNoise.WeaveAlternate | Sequential_NIAH_building_PPL_with_sem_noise.py:261-275 | with no empty needle, the weave with the appended `""` is the plain alternating list |
| SemNoise.JoinWeaveEmbed | Sequential_NIAH_building_PPL_with_sem_noise.py:277-278 | joining the weave of embedded shards gives prefix + joined weave + suffix |
| SemNoise.NoisyShardFrame | Sequential_NIAH_building_PPL_with_sem_noise.py:264-268 | one shard keeps its frame through the loop body |
| SemNoise.NoisyFrames | Sequential_NIAH_building_PPL_with_sem_noise.py:264-271 | only shard 0 gets `start_index`, so noisy prompt shards embed the noisy document shards |
| SemNoise.NoiseSpliceErrors | Sequential_NIAH_building_PPL_with_sem_noise.py:252-268 | the errors are exactly: the frame-count assertion (`FrameCountMismatch`), then the shard-count assertion (`ShardCountMismatch`), a sample larger than the shard list, and a target shard without a terminator |
| SemNoise.NoiseSpliceOk | Sequential_NIAH_building_PPL_with_sem_noise.py:252-260 | a success had matching counts and distinct in-range targets, one per noise sentence |
| SemNoise.NoiseSpliceUntouched | Sequential_NIAH_building_PPL_with_sem_noise.py:262-271 | shards that are not targets come out unchanged in both frames |
| SemNoise.NoiseSpliceTarget | Sequential_NIAH_building_PPL_with_sem_noise.py:260-271 | target `k` holds noise sentence `k`, wrapped, right after its chosen terminator, in both frames |
| SemNoise.NoiseSpliceInterleave | Sequential_NIAH_building_PPL_with_sem_noise.py:261-279 | with no empty needle, the needles sit in their order between the noisy shards, in both frames |
| SemNoise.NoiseSpliceNoNoise | Sequential_NIAH_building_PPL_with_sem_noise.py:255-279 | without noise sentences, the result is the plain splice of both shard lists |
| SemNoise.NoiseSpliceFrames | Sequential_NIAH_building_PPL_with_sem_noise.py:264-278 | when the prompt shards embed the document shards with a prefix of length `start_index`, the prompt result is `P` + the document result + `S` |

## Left out

- The LLM noise authors (`gen_syn_semantic_noise`, `gen_tkg_semantic_noise`, `gen_tkg_semantic_noise_finance`, `gen_open_semantic_noise`) and `LLM_API` are network calls. The noise sentences are inputs here.
- The file and driver plumbing is not modelled: JSONL reading and writing, `load_QA_source`, `prepare_data`, the `__main__` loops, `md5` suffixing and `noise_type` labels.
- `gen_pair_md5` (hashlib) and the `tiktoken` token count are foreign libraries, so the record has no `md5` or `length` field.
- The `random` module and its seeding are left out. Every draw is a parameter constrained to the values the library can return; nothing is claimed about distributions.
- The metadata copying in `build_data` (answer, sources, `meta_text`) is plain field copying and is not modelled. The `open`-source assertion on `items` is also left out.
- The question-first prompt layout of `build_data` is left out: `random.choices([0, 1], weights=[0, 100])` always selects the document-first layout.
- The drivers compute `start_idx` with `raw_input_content.find(text_with_needles)`. That call is not modelled; the frame lemmas take the prefix relation (`len(P) == start_idx`) as a precondition instead, and the `-1` "not found" result is excluded by `start_idx: nat`.
- A language other than `zh` or `en` is not modelled. `Lang` has two values; for any other value the first scripts would use `'.'`, and `insert_after_random_period` would fail on an unbound name.
- In-place mutation (`random.shuffle(needles)`, `insert_position.sort()`, `index_boxes[key] = …`) is modelled on values: the shuffled order is a parameter, the sort is a function and the dictionary is a map. Aliasing of the caller's `needles` list, which the reorder branch shuffles cumulatively across samples, is not modelled; each reordering is stated against the fixed anchor.
- NeedleSplit.RoundTrip: proved under `Clean`, which has three parts. No shard or needle contains a newline or `[CHAT_SEP]`, and no middle shard equals a needle. That is sufficient but stronger than "no spurious match".
- NiahBuild.PlacementRoundTrip: inherits the `Clean` precondition of `RoundTrip`.
- NeedleSplit.CheckAfterRoundTrip: inherits `Clean` from `RoundTrip`, so the check is not characterised on shards that contain a marker, a newline or a needle.
- NoiseMoves.FinalBoxEmpty: gives one sufficient condition for an empty last box, not every way the box loop can leave a box empty.
- SemNoise.NoiseSpliceInterleave: stated only for needles that are all non-empty, because the source skips an empty needle.
- SemNoise.NoiseSpliceNoNoise: stated only for needles that are all non-empty, for the same reason.
- NoiseMoves.ReorderFrames: stated for prompt shards that are the document shards with a prefix on the first and a suffix on the last. A prompt that merely joins to `P + D + S` with different shard boundaries is not covered.
- SemNoise.NoiseSpliceFrames: stated for the same embedded form of the prompt shards.
- NoiseMoves.StepSeparates: states separation of the two boxes only right after each iteration. A later re-cut can break it, as `OverlapReachesBack` shows, so no separation holds for the final boxes.
- The noise splice has no total-length lemma. Its lengths follow from `NoiseSpliceTarget`, `NoiseSpliceUntouched` and `InsertAfterPeriodDoc` shard by shard.
