# Dependency-graph drawing and feature-id tables, in Dafny

This project models two parts of the TEES relation-extraction toolkit and
proves properties of them.

**The dependency-graph layout engine (`CommonUtils/draw_dg.py`).** It reads a
sentence together with its typed dependency arcs, then works out a drawing of
them:

- `depHeights` assigns each arc a level so that arcs on one level never
  overlap.
- `simpleTokenLayout` places the tokens left to right on one baseline.
- `improveTokenLayout`/`nudgeTokens` push tokens to the right, level by
  level, until every arc's label fits between its end points.
- `computeParameters` computes each arc's curve.
- `generateSVG` orders the drawing primitives: arcs, then label plaques, then
  texts.

The modules are:

| module | contents |
|---|---|
| `DepGraph` (depgraph.dfy) | constants, `tokSpec`, the `Token` and `Dep` classes, arc geometry, label primitives |
| `LevelAssigner` (levels.dfy) | `depCMP` and `depHeights` |
| `HorizontalLayout` (layout.dfy) | `simpleTokenLayout`, `nudgeTokens`, `improveTokenLayout` |
| `Drawing` (drawing.dfy) | `layout`, `drawOrder`, `generateSVG` |
| `InputReader` (input.dfy) | `readInput` |

Each imperative routine is a method on the `Token`/`Dep` objects. It is
proved against a specification function over sequences, such as
`InitialXs`, `Nudged`, `Improved`, `Levels` and `Read`. The lemmas prove
what the layout promises about those functions.

**The feature-id table (`JariSandbox/ComplexPPI/Source/Core/FeatureSet.py`).**
This is module `FeatureSets` (featureset.dfy).

- Class `FeatureSet` has the dictionary `featureIds` and `firstNumber`.
  `getId` interns a name to the next consecutive id.
- `toStrings` packs the `key:id` pairs, in key order, into rows of about
  `rowLength` characters.
- `write`/`load` save the table as `key: id` lines and read it back. They are
  modelled on the lines of the file (`WriteLines`, and `LoadLines` plus
  `FeatureSet.Load`).

Shared helpers:

- `Sorting` is a stable sort by key. Python 2's `list.sort(cmp=...)` is stable.
- `Strings` models `str.strip`, `str.split`, `str`/`int` on integers and
  sorted dictionary keys.
- `Wrappers` provides `Option` and `Result`.

Where a comment in the code and the code disagree, the model follows the
code:

- `Dep.__init__` says it rejects self-dependencies, but it only rejects
  `tok1.pos > tok2.pos`.
- An arc with equal end points therefore gets through `readInput`, and then
  makes `max()` fail inside `depHeights`. The model reports this as
  `EmptyMaximum`.

## Model

| member | source | states |
|---|---|---|
| DepGraph.TextWidth | CommonUtils/draw_dg.py:17-18 | the width estimate is non-negative, and positive for non-empty text |
| DepGraph.Trunc | CommonUtils/draw_dg.py:14-15 | `int()` truncates toward zero: within 1 of the value, and never past it away from 0 |
| DepGraph.Half | CommonUtils/draw_dg.py:160-163 | `w // 2` on a float: the floor of `w/2`, within 1 below it and non-negative for `w >= 0` |
| DepGraph.TokSpec | CommonUtils/draw_dg.py:20-26 | on a match, the digits are non-empty decimal digits and `prefix + "_" + digits` rebuilds the text; otherwise the text comes back whole with no spec |
| DepGraph.TokSpecOfSuffixed | CommonUtils/draw_dg.py:20-26 | conversely, a prefix without newline, `_` and digits is split exactly there, so the split is at the last `_digits` |
| DepGraph.TokSpecNoUnderscore | CommonUtils/draw_dg.py:20-26 | a text without `_` has no spec |
| DepGraph.Token.constructor | CommonUtils/draw_dg.py:30-35 | the text and spec are `tokSpec` of the input, the position is kept, and the coordinates start at 0 |
| DepGraph.Token.Width | CommonUtils/draw_dg.py:42-43 | a token's width is non-negative |
| DepGraph.Token.ToPrim | CommonUtils/draw_dg.py:45-55 | the token's text primitive carries its text, the font size, its `y`, and its `x` truncated |
| DepGraph.Dep.constructor | CommonUtils/draw_dg.py:64-70 | a forward arc keeps its end tokens and type; height 0, no parameters yet |
| DepGraph.Dep.Make | CommonUtils/draw_dg.py:64-70 | fails with `ArcOrder` exactly when `tok1.pos > tok2.pos`; equal positions are accepted |
| DepGraph.Dep.MinWidth | CommonUtils/draw_dg.py:78-79 | label width plus padding on both sides, and at least `2*minDepPadding` |
| DepGraph.ArcGeometry | CommonUtils/draw_dg.py:81-112 | shelf and label height `tok1.y - fontSize - height*depVertSpace`; control points sit at `frox` or `tox`; `midx` lies between the ends; the lead-in height lies between shelf and baseline |
| DepGraph.HigherLevelDrawnHigher | CommonUtils/draw_dg.py:85-95 | an arc one level higher is drawn exactly `depVertSpace` further from the baseline |
| DepGraph.Dep.ComputeParameters | CommonUtils/draw_dg.py:81-112 | `param` becomes the arc geometry of the current token coordinates and height; the height is unchanged |
| DepGraph.LabelPrims | CommonUtils/draw_dg.py:124-146 | the white plaque covers the label's estimated width around `midx` and straddles the shelf; the text is the type, centred at `midx` |
| LevelAssigner.DepCmp | CommonUtils/draw_dg.py:194-200 | negative, zero or positive exactly as `(span length, tok1.pos)` compares lexicographically |
| LevelAssigner.MaxRangeUpper | CommonUtils/draw_dg.py:206 | the maximum over a gap range bounds every floor in it |
| LevelAssigner.MaxRangeAttained | CommonUtils/draw_dg.py:206 | the maximum over a non-empty gap range is one of its floors |
| LevelAssigner.FloorsRaise | CommonUtils/draw_dg.py:208-209 | placing an arc raises exactly the floors it covers to its level |
| LevelAssigner.LevelPositive | CommonUtils/draw_dg.py:206-207 | every arc's height is at least 1 |
| LevelAssigner.FloorsGrow | CommonUtils/draw_dg.py:205-209 | floors never decrease while arcs are placed |
| LevelAssigner.LaterOverlapHigher | CommonUtils/draw_dg.py:205-209 | an arc placed later that overlaps an earlier one gets a strictly greater height |
| LevelAssigner.SameLevelDisjoint | CommonUtils/draw_dg.py:205-209 | two arcs of one height have disjoint gap ranges |
| LevelAssigner.FloorIsLevel | CommonUtils/draw_dg.py:205-209 | each floor is 0 or the level of an arc placed earlier |
| LevelAssigner.MaxFloorIsMaxLevel | CommonUtils/draw_dg.py:210 | the returned maximum floor is the largest arc height (0 with no arcs) and is attained by an arc |
| LevelAssigner.RaiseGaps | CommonUtils/draw_dg.py:208-209 | the loop over `range(tok1.pos, tok2.pos)` raises exactly those floors |
| LevelAssigner.PlaceArcs | CommonUtils/draw_dg.py:205-209 | succeeds exactly when no arc has equal end points; the floors and every `dep.height` are those of the specification |
| LevelAssigner.DepHeights | CommonUtils/draw_dg.py:202-210 | arcs come back stably sorted by `depCMP`; success exactly when there are two tokens or more and no arc has equal end points, otherwise `max()` of an empty range; heights and result as specified |
| LevelAssigner.ChainOnOneLevel | CommonUtils/draw_dg.py:202-210 | two adjacent arcs share level 1 |
| LevelAssigner.SubsumingArcOneLevelUp | CommonUtils/draw_dg.py:202-210 | an arc spanning two level-1 arcs gets level 2 |
| HorizontalLayout.InitialXNext | CommonUtils/draw_dg.py:163 | `x[i] = x[i-1] + w[i-1]//2 + tokenSpace + w[i]//2` |
| HorizontalLayout.InitialSpacing | CommonUtils/draw_dg.py:160-163 | any two tokens are at least half widths plus `tokenSpace` apart |
| HorizontalLayout.InitialSeparated | CommonUtils/draw_dg.py:160-163 | `x[0] = w[0]//2`, and adjacent tokens are separated, so `x` strictly increases |
| HorizontalLayout.SimpleTokenLayout | CommonUtils/draw_dg.py:155-164 | the tokens' `x` become the initial layout of their widths; every `y` is `baseY`; the arcs are untouched |
| HorizontalLayout.DeficitsNonneg | CommonUtils/draw_dg.py:170-174 | every nudge is non-negative |
| HorizontalLayout.DeficitWritten | CommonUtils/draw_dg.py:170-174 | an arc short of room writes its shortfall at its `tok2`, unless a later arc to the same token does |
| HorizontalLayout.NudgeWidens | CommonUtils/draw_dg.py:176-179 | after the nudge no token moved left and no distance between two tokens shrank |
| HorizontalLayout.FitsPreserved | CommonUtils/draw_dg.py:176-179 | an arc that had room keeps it |
| HorizontalLayout.NudgeSeparated | CommonUtils/draw_dg.py:176-179 | the spacing of the initial layout survives the nudge |
| HorizontalLayout.NudgeFit | CommonUtils/draw_dg.py:167-179 | when at most one short arc targets each token, every arc of the level has room afterwards |
| HorizontalLayout.ComputeNudge | CommonUtils/draw_dg.py:169-174 | the nudge array is computed from the coordinates before any shift |
| HorizontalLayout.ApplyNudge | CommonUtils/draw_dg.py:176-179 | token `i` moves right by the running sum of the nudges up to `i`; `y` is unchanged |
| HorizontalLayout.NudgeTokens | CommonUtils/draw_dg.py:167-179 | the arcs are stably sorted by `tok1.pos` and the tokens end at the nudged coordinates; `y` is unchanged |
| HorizontalLayout.InnerBreaksShape | CommonUtils/draw_dg.py:186-188 | the inner breaks ascend and are exactly the indices where the height changes |
| HorizontalLayout.BreaksShape | CommonUtils/draw_dg.py:185-189 | the breaks run from 0 to the last index, and each slice holds one height after its first arc |
| HorizontalLayout.FindBreaks | CommonUtils/draw_dg.py:185-189 | the loop builds `[0] + breaks + [len-1]` as specified |
| HorizontalLayout.Slice | CommonUtils/draw_dg.py:191 | `dependencies[b[k-1]:b[k]+1]`, element by element |
| HorizontalLayout.UnkeyedSorted | CommonUtils/draw_dg.py:183 | sorting by height keeps exactly the same arcs |
| HorizontalLayout.SliceOneUnfit | CommonUtils/draw_dg.py:189-191 | in each slice at most one short arc targets a token, because the previous group's last arc has room already |
| HorizontalLayout.NudgeSliceFits | CommonUtils/draw_dg.py:190-191 | a slice's nudge gives its arcs room and takes it from no arc that had it |
| HorizontalLayout.ImproveFit | CommonUtils/draw_dg.py:182-191 | when arcs of one level have distinct targets, every arc has room after the sweep |
| HorizontalLayout.ImproveSeparated | CommonUtils/draw_dg.py:182-191 | the sweep keeps the initial token spacing |
| HorizontalLayout.SweepWidens | CommonUtils/draw_dg.py:176-191 | nudging any number of groups in turn moves no token left and shrinks no distance between two tokens |
| HorizontalLayout.ImproveWidens | CommonUtils/draw_dg.py:182-191 | the improved layout has every token at or right of its input position, with no two tokens closer than before |
| HorizontalLayout.SweepStep | CommonUtils/draw_dg.py:190-191 | one pass of the loop is one more group of the sweep |
| HorizontalLayout.NudgeGroup | CommonUtils/draw_dg.py:191 | nudging group `k` moves the tokens from sweep `k-1` to sweep `k` |
| HorizontalLayout.NudgeGroups | CommonUtils/draw_dg.py:190-191 | the loop leaves the tokens at the full sweep |
| HorizontalLayout.ImprovedIsSweep | CommonUtils/draw_dg.py:185-191 | the improved layout is the sweep over the groups the breaks cut |
| HorizontalLayout.SweepLevels | CommonUtils/draw_dg.py:185-191 | the tokens end at `Improved` of their coordinates; `y` and the arcs are unchanged |
| HorizontalLayout.ImproveTokenLayout | CommonUtils/draw_dg.py:182-191 | the arcs are stably sorted by height, the same arcs, and the tokens end at the improved layout |
| Drawing.ComputeCurves | CommonUtils/draw_dg.py:251-252 | every arc's curve is computed from the final coordinates; tokens and heights are unchanged |
| Drawing.PlaceTokens | CommonUtils/draw_dg.py:249-252 | the tokens end at the improved initial layout on `baseY`, with every curve computed |
| Drawing.LayoutLevelled | CommonUtils/draw_dg.py:248-252 | `baseY` from the maximum height, then placement, reaching the laid-out state |
| Drawing.Layout | CommonUtils/draw_dg.py:246-252 | success exactly when there are two tokens or more and no arc has equal end points; then the tokens, heights and curves are those of the specification |
| Drawing.FinalOrderPerm | CommonUtils/draw_dg.py:204 | both sorts permute the arcs |
| Drawing.FinalOrderMembers | CommonUtils/draw_dg.py:183 | the final order holds exactly the arcs given |
| Drawing.FinalOrderDisjoint | CommonUtils/draw_dg.py:202-210 | in the final order, two arcs of one height do not overlap |
| Drawing.FinalTargetsDistinct | CommonUtils/draw_dg.py:168 | arcs of one level have distinct targets, which `nudgeTokens` relies on |
| Drawing.FinalOrderFits | CommonUtils/draw_dg.py:246-250 | after `layout`'s passes every arc has room for its label |
| Drawing.LaidOutFits | CommonUtils/draw_dg.py:246-252 | once laid out, `tok2.x - tok1.x >= minWidth()` for every arc |
| Drawing.LaidOutSeparated | CommonUtils/draw_dg.py:246-252 | once laid out, the tokens keep at least `tokenSpace` between their half widths |
| Drawing.LaidOutRightOfInitial | CommonUtils/draw_dg.py:246-252 | once laid out, every token is at or right of its `simpleTokenLayout` position, and no two tokens are closer than there |
| Drawing.LaidOutLevels | CommonUtils/draw_dg.py:247 | all heights lie in `[1, maxHeight]`, and `maxHeight` is attained (0 with no arcs) |
| Drawing.LaidOutDisjoint | CommonUtils/draw_dg.py:247 | arcs drawn at one height do not overlap |
| Drawing.LaidOutArcsInside | CommonUtils/draw_dg.py:248 | every shelf lies between the top margin and one level above the baseline |
| Drawing.DrawOrder | CommonUtils/draw_dg.py:212-225 | the comparator compares the layers path < rect < text and nothing else |
| Drawing.SortedLayers | CommonUtils/draw_dg.py:240 | a list sorted by layer is its paths, then rects, then texts |
| Drawing.DrawOrderLayers | CommonUtils/draw_dg.py:240 | the sort yields every path before every rect before every text, each layer in input order |
| Drawing.ArcsSceneLayers | CommonUtils/draw_dg.py:237-239 | the arc primitives contribute one curve, one plaque and one label per arc, in arc order |
| Drawing.SceneLayers | CommonUtils/draw_dg.py:234-240 | the sorted scene is the curves, the plaques, the token texts, then the labels |
| Drawing.TokenNodes | CommonUtils/draw_dg.py:235-236 | one text primitive per token, in order |
| Drawing.ArcNodes | CommonUtils/draw_dg.py:237-239 | curve, plaque and label of each arc, in order |
| Drawing.DrawScene | CommonUtils/draw_dg.py:234-242 | the primitives in drawing order, as the scene lemma states |
| Drawing.GenerateSvg | CommonUtils/draw_dg.py:227-243 | `layout` succeeds or fails as above; then the output is curves, plaques, token texts and labels |
| InputReader.SkippedStripped | CommonUtils/draw_dg.py:260-262 | a line is skipped exactly when it strips to nothing or to a `#` comment |
| InputReader.Resolve | CommonUtils/draw_dg.py:271-278 | a reference resolves to the one token with its text and spec; otherwise the error gives the number of candidates, which is not 1 |
| InputReader.ResolveFails | CommonUtils/draw_dg.py:272-278 | resolving fails exactly when no token, or two tokens or more, match |
| InputReader.ParseArc | CommonUtils/draw_dg.py:267-281 | a parsed arc runs forward between token positions |
| InputReader.ReadLineTokens | CommonUtils/draw_dg.py:260-265 | skipped lines change nothing; the first other line gives the token words |
| InputReader.ReadLineErrors | CommonUtils/draw_dg.py:267-278 | a later line without exactly 3 fields is malformed; every error is malformed, unresolved, or a backward arc |
| InputReader.ReadLineArc | CommonUtils/draw_dg.py:267-281 | a dependency line adds one arc whose ends resolve as the fields say |
| InputReader.ReadLineDep | CommonUtils/draw_dg.py:266-281 | after the tokens, a line is `ParseArc` of its stripped text |
| InputReader.ReadArcs | CommonUtils/draw_dg.py:282-284 | a successful read has at least one arc, all forward and within the tokens |
| InputReader.ReadFromAppend | CommonUtils/draw_dg.py:259-281 | reading two blocks of lines is reading the first, then the second |
| InputReader.SkippedLineIgnored | CommonUtils/draw_dg.py:260-262 | removing a blank or comment line anywhere changes nothing |
| InputReader.FirstErrorDecides | CommonUtils/draw_dg.py:267-278 | the first failing line decides the error |
| InputReader.TokenLineFirst | CommonUtils/draw_dg.py:263-265 | the tokens are the words of the first line that is not skipped |
| InputReader.WordsKept | CommonUtils/draw_dg.py:263-265 | once read, the tokens never change |
| InputReader.ReadyForLayout | CommonUtils/draw_dg.py:265-281 | the objects read are indexed tokens and arcs attached to them |
| InputReader.Matching | CommonUtils/draw_dg.py:272 | the comprehension keeps the matching tokens in order |
| InputReader.MakeTokens | CommonUtils/draw_dg.py:265 | fresh tokens at positions `0..n-1` for the words |
| InputReader.MatchingResolves | CommonUtils/draw_dg.py:272-280 | the candidate count is 1 exactly when the reference resolves, to that token |
| InputReader.ReadArcLine | CommonUtils/draw_dg.py:267-281 | a new `Dep` for the parsed arc, or the parse error |
| InputReader.StripLine | CommonUtils/draw_dg.py:260-261 | the stripped line and whether it is skipped |
| InputReader.ReadInputLine | CommonUtils/draw_dg.py:259-281 | one loop pass matches `ReadLine` on the abstract reading |
| InputReader.ReadDepLine | CommonUtils/draw_dg.py:267-281 | a dependency line appends the parsed arc as a new, distinct `Dep` |
| InputReader.ReadInput | CommonUtils/draw_dg.py:255-284 | fails exactly when `Read` does, with its error; otherwise fresh tokens and distinct arcs mirroring `Read` |
| Sorting.Cmp | CommonUtils/draw_dg.py:198 | Python's `cmp`: negative, zero or positive as the arguments compare |
| Sorting.SortByPerm | CommonUtils/draw_dg.py:204 | the sort is a permutation |
| Sorting.SortBySorted | CommonUtils/draw_dg.py:204 | the result is sorted by key |
| Sorting.SortByStable | CommonUtils/draw_dg.py:183 | elements of one key keep their order |
| Strings.Strip | CommonUtils/draw_dg.py:260 | the result has no surrounding whitespace and is empty exactly for blank input |
| Strings.Words | CommonUtils/draw_dg.py:265 | `split()`: non-empty fields without whitespace, none for a blank line |
| Strings.SplitOnOne | JariSandbox/ComplexPPI/Source/Core/FeatureSet.py:43 | splitting `a:b` with no other `:` gives exactly `[a, b]` |
| Strings.IntToStringRoundTrip | JariSandbox/ComplexPPI/Source/Core/FeatureSet.py:45 | `int(str(n)) == n` |
| Strings.SortedKeys | JariSandbox/ComplexPPI/Source/Core/FeatureSet.py:21-22 | the keys, each once, in strictly ascending order |
| FeatureSets.FeatureSet.constructor | JariSandbox/ComplexPPI/Source/Core/FeatureSet.py:2-4 | an empty table with the given `firstNumber`, dense |
| FeatureSets.Intern | JariSandbox/ComplexPPI/Source/Core/FeatureSet.py:6-9 | adds exactly `name`, keeps the old entries, returns the name's id; a new name gets `firstNumber + len` |
| FeatureSets.InternIdempotent | JariSandbox/ComplexPPI/Source/Core/FeatureSet.py:7-9 | asking again returns the same id and changes nothing |
| FeatureSets.InternGrowth | JariSandbox/ComplexPPI/Source/Core/FeatureSet.py:7-8 | one entry more exactly when the name is new |
| FeatureSets.InternKeepsDense | JariSandbox/ComplexPPI/Source/Core/FeatureSet.py:7-8 | ids stay distinct and fill `[firstNumber, firstNumber + len)`; a new id is unused |
| FeatureSets.FeatureSet.GetId | JariSandbox/ComplexPPI/Source/Core/FeatureSet.py:6-9 | the dictionary and id are `Intern` of the old state; `firstNumber` is unchanged; density is kept |
| FeatureSets.EntriesInKeyOrder | JariSandbox/ComplexPPI/Source/Core/FeatureSet.py:21-22 | every entry once, nothing else, keys strictly ascending |
| FeatureSets.PackContents | JariSandbox/ComplexPPI/Source/Core/FeatureSet.py:24-32 | the rows hold the pairs in order, none lost or repeated |
| FeatureSets.PackBreaks | JariSandbox/ComplexPPI/Source/Core/FeatureSet.py:26-29 | each row after the first is opened by a pair the previous row had no room for; what a row counts fits; `currLen` is what the last row counts, with the pair that opened it not counted |
| FeatureSets.RowWidth | JariSandbox/ComplexPPI/Source/Core/FeatureSet.py:26-32 | the first row is shorter than `rowLength`; a later row exceeds it by at most its opening pair |
| FeatureSets.ResetOverfillsRow | JariSandbox/ComplexPPI/Source/Core/FeatureSet.py:26-29 | with `rowLength` 4, pairs `a:1`, `b:2`, `c:3` give `["a:1", "b:2;c:3"]`: because of the reset a row grows past `rowLength` |
| FeatureSets.PackEmpty | JariSandbox/ComplexPPI/Source/Core/FeatureSet.py:20-33 | an empty table prints as `[""]` |
| FeatureSets.ToStringsStep | JariSandbox/ComplexPPI/Source/Core/FeatureSet.py:25-32 | one loop pass, with `;` only after a non-empty row, extends the packing by one pair |
| FeatureSets.PackEntries | JariSandbox/ComplexPPI/Source/Core/FeatureSet.py:20-33 | the loop returns the rows of the packing joined by `;` |
| FeatureSets.FeatureSet.ToStrings | JariSandbox/ComplexPPI/Source/Core/FeatureSet.py:19-33 | the pairs of the table in key order, packed into rows |
| FeatureSets.ParseLine | JariSandbox/ComplexPPI/Source/Core/FeatureSet.py:43-45 | a parsed key is stripped |
| FeatureSets.ParseWrittenLine | JariSandbox/ComplexPPI/Source/Core/FeatureSet.py:43-45 | the line `write` prints for a key without `:`, newline or surrounding whitespace parses back to that key and id |
| FeatureSets.ReadEntriesStops | JariSandbox/ComplexPPI/Source/Core/FeatureSet.py:42-45 | the lines after a bad one do not matter |
| FeatureSets.ReadEntriesFails | JariSandbox/ComplexPPI/Source/Core/FeatureSet.py:42-45 | loading succeeds exactly when every line parses; the error names the first bad line and its kind |
| FeatureSets.ReadEntriesFold | JariSandbox/ComplexPPI/Source/Core/FeatureSet.py:42-48 | good lines are stored in file order |
| FeatureSets.FoldKeys | JariSandbox/ComplexPPI/Source/Core/FeatureSet.py:48 | the loaded keys are exactly the keys of the lines |
| FeatureSets.FoldValues | JariSandbox/ComplexPPI/Source/Core/FeatureSet.py:48 | every loaded id was read with its key |
| FeatureSets.FoldLastWins | JariSandbox/ComplexPPI/Source/Core/FeatureSet.py:48 | a key keeps the value of its last line |
| FeatureSets.FoldLow | JariSandbox/ComplexPPI/Source/Core/FeatureSet.py:46-47 | the tracked minimum is at most every value and is one of them |
| FeatureSets.LoadFirstNumber | JariSandbox/ComplexPPI/Source/Core/FeatureSet.py:37-47 | as written, `firstNumber` ends at most 0, at most every value, and equal to 0 or a value read |
| FeatureSets.ReadWrittenLines | JariSandbox/ComplexPPI/Source/Core/FeatureSet.py:11-17 | every written line parses, so loading stores the entries in key order |
| FeatureSets.ReadWritten | JariSandbox/ComplexPPI/Source/Core/FeatureSet.py:35-48 | loading the written lines gives back exactly the ids, with their least id as minimum |
| FeatureSets.WriteThenLoad | JariSandbox/ComplexPPI/Source/Core/FeatureSet.py:35-48 | round trip as written: the same ids, and `firstNumber = min(0, ids)` |
| FeatureSets.WriteThenLoadFixed | JariSandbox/ComplexPPI/Source/Core/FeatureSet.py:35-48 | round trip with the corrected `load`: the same ids and `firstNumber`, and the table dense again |
| FeatureSets.ReloadFixedFresh | JariSandbox/ComplexPPI/Source/Core/FeatureSet.py:7-8 | after a corrected reload a new name gets an unused id |
| FeatureSets.ReloadCollides | JariSandbox/ComplexPPI/Source/Core/FeatureSet.py:37-47 | as written, a saved default table reloads with `firstNumber` 0, is no longer dense, and the next new name gets an id already in use |
| FeatureSets.FeatureSet.Load | JariSandbox/ComplexPPI/Source/Core/FeatureSet.py:35-48 | the loop leaves the table `LoadLinesFixed` gives, or stops at the first bad line with the entries before it |

## Left out

- Floating point: widths, `0.65`, the `0.6` curve factor and the running `cumulative` are exact `real`s. The proved label fit may be off by rounding in the program.
- Python 2 byte strings are modelled as sequences of characters. `len` counts bytes, so the estimated width of a non-ASCII token differs. `len(pair)` in `toStrings` also counts bytes, so its row breaks differ for non-ASCII keys.
- Sorting in place: `deps.sort(...)` (draw_dg.py lines 168, 183, 204) is modelled by methods that return the reordered sequence, and the caller carries it on. List aliasing is not modelled.
- SVG serialisation is modelled by abstract `Prim` records: the element trees, the path string at line 116, the style dictionaries and their order, `ETUtils.write`.
- `ValueError` messages are modelled by `DgError` values holding the offending line, reference, candidate count or positions.
- The command-line `__main__` block, `sys.stdin`, and the opening, closing and `readlines` of files in `write`/`load` are not modelled. A file is the sequence of its lines.
- `str(key)` for non-string keys is not modelled: keys are strings.
- `int()` is modelled as an optional sign followed by decimal digits. Any other spelling `int` might accept is read as an error.
- Bad lines in `load`: the model stops at the first line that does not split into two fields or whose value is not an integer. The program raises an exception there and leaves the table half-filled. The model returns that line and its kind of error.
- DepGraph.Dep.constructor: requires `tok1.pos <= tok2.pos`. The order check of `__init__` is in `Dep.Make` and `ParseArc`, which construct only forward arcs.
- HorizontalLayout.SimpleTokenLayout: requires at least one token. With none, the code raises `IndexError`, but `layout` never gets there: `depHeights` fails first.
- Drawing.Layout: requires distinct arc objects and arcs attached to the tokens, as `readInput` builds them (InputReader.ReadInput ensures both).
- FeatureSets.WriteThenLoad: proved for keys without `:`, newline or surrounding whitespace. For other keys, `load` does not give back what `write` printed.
- FeatureSets.FeatureSet.Load: models the corrected `load`, where `firstNumber` is the smallest id read. The code's rule, `min(0, ids)`, is `LoadLines` (see Findings).

## Findings

| source | as written | input that shows it | evidently intended | confidence | as-written member | corrected member |
|---|---|---|---|---|---|---|
| JariSandbox/ComplexPPI/Source/Core/FeatureSet.py:37-47 | `load` starts `firstNumber` at 0 and lowers it only for smaller values, so it ends at `min(0, ids)` | a table `{"a": 1}` built with the default `firstNumber` 1 is written and loaded; then `getId("b")` returns 1, the id of `"a"` | `firstNumber` is the smallest id read, so ids stay dense and new names get unused ids | not executed | FeatureSets.ReloadCollides | FeatureSets.WriteThenLoadFixed |
