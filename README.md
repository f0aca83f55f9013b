# LuckyGroup list logic, modelled in Dafny

LuckyGroup is a browser tool that keeps a list of participant names and offers
two things to do with it: a lucky draw that picks one winner at a time, with
or without repeats, and a random split into groups of a chosen size. This
project models the list logic embedded in its three tab components and proves
what that logic guarantees:

- `common.dfy` (module `Common`): the participant record (an opaque id and a
  name), the hand-off to the CSV exporter, the decimal rendering `${n}` of a
  number, id sets and order-preserving subsequences.
- `name_list.dfy` (module `NameList`, from `components/InputSection.tsx`):
  the per-name tally and the duplicate flag, the one-click deduplication that
  keeps the first participant of each name, appending parsed text, and
  clearing the list. The tab is a class `InputSection` whose fields are the
  shared participant list and the text area.
- `lucky_draw.dfy` (module `LuckyDraw`, from
  `components/LuckyDrawSection.tsx`): the candidate pool as a pure function
  of the participants, the winners and the repeat flag; the tab as a class
  `LuckyDrawSection` with the fields `winners`, `allowRepeats`,
  `candidateList` and `isDrawing`; and the rank rows of the export.
- `grouping.dfy` (module `Grouping`, from `components/GroupingSection.tsx`):
  the group-size input, the slicing loop, the group-count preview and the
  padded export grid, and the tab as a class `GroupingSection`.

Randomness is a parameter: the draw's random index is the argument of
`FinishDraw`, and the shuffle is any permutation of the participants passed
to `GenerateGroups`. The name parser's output is the argument of
`HandleTextAdd`. Confirmation dialogs are a boolean argument (the user's
answer).

The model follows these behaviours of the code:

- The winner is chosen from the candidate list captured when the draw
  started, because the timer callback closes over it. It is not the pool at
  the moment the draw completes. `StartDraw` captures that list in
  `drawPool`, and `FinishDraw` picks from it.
- In consequence, a draw started with repeats on and switched to repeats off
  before the timer fires still picks from the full captured list, so it can
  return someone who has already won. `FinishDraw` therefore promises
  distinct winner ids only when the captured list excluded the winners.
- The reset button and the repeat switch stay enabled while a draw runs.
  Neither `ResetDraw` nor `ToggleRepeats` requires the draw to be idle.

## Model

| member | source | states |
|---|---|---|
| `NameList.CountNames` | components/InputSection.tsx:23-28 | the tally's keys are exactly the names in the list, and each name maps to the number of participants carrying it |
| `NameList.CountsSumToLength` | components/InputSection.tsx:23-28 | summing the tally over its names, in any order and each once, gives the length of the list |
| `NameList.HasDuplicatesIff` | components/InputSection.tsx:23-30 | the duplicate flag is up exactly when two participants share a name, and exactly when deduplication would change the list |
| `NameList.RemoveDuplicates` | components/InputSection.tsx:44-56 | the one-pass loop over a set of seen names yields the deduplicated list |
| `NameList.DedupKeepsFirstOccurrences` | components/InputSection.tsx:48-53 | the result is no longer than the input and is an order-preserving subsequence of it. Its names are pairwise distinct and are the input's names. Each kept participant is the first of its name, and every first occurrence is kept |
| `NameList.DedupIdempotent` | components/InputSection.tsx:44-56 | deduplicating a deduplicated list changes nothing |
| `NameList.DedupUnchangedIff` | components/InputSection.tsx:44-56 | deduplication leaves the list unchanged exactly when its names are pairwise distinct |
| `NameList.TrimEmptyIffBlank` | components/InputSection.tsx:33 | the text trims to the empty string exactly when every character is JavaScript whitespace |
| `NameList.InputSection.constructor` | components/InputSection.tsx:17-18 | the tab opens on the shared participant list with an empty text area |
| `NameList.InputSection.HandleTextAdd` | components/InputSection.tsx:32-38 | text that trims to nothing changes nothing. Otherwise the parsed entries follow the old list, which is kept as a prefix, and the text area is emptied |
| `NameList.InputSection.HandleRemoveDuplicates` | components/InputSection.tsx:44-56 | the list is replaced by its deduplicated form; the text area is untouched |
| `NameList.InputSection.ClearAll` | components/InputSection.tsx:81-87 | a confirmed clear empties the list and the text area; a declined one changes nothing |
| `NameList.DuplicatesFlaggedAsWritten` | components/InputSection.tsx:23-30 | with the tally on a plain object, the flag is up exactly when a name that is not an inherited property name occurs twice |
| `NameList.PlainObjectMissesDuplicate` | components/InputSection.tsx:23-30 | two participants named "constructor" share a name, yet the flag computed on the plain object stays down |
| `LuckyDraw.ExcludeIds` | components/LuckyDrawSection.tsx:31-32 | the filtered list holds exactly the participants whose id is not excluded, and is no longer than the input |
| `LuckyDraw.PoolContents` | components/LuckyDrawSection.tsx:26-34 | with repeats the pool is the participant list whatever the winners. Without repeats it is the in-order subsequence of participants whose id has not won, and holds no winner |
| `LuckyDraw.PoolSize` | components/LuckyDrawSection.tsx:31-32 | with distinct participant ids and distinct winners drawn from them, the pool without repeats has n minus the number of winners members; with repeats it has n |
| `LuckyDraw.DrawKeepsIdsDistinct` | components/LuckyDrawSection.tsx:59-62 | prepending a pool member drawn without repeats keeps the winners' ids pairwise distinct and within the participants' ids |
| `LuckyDraw.ExportRanks` | components/LuckyDrawSection.tsx:77-81 | without winners there is no export. Otherwise there is one two-cell row per winner: row i reads back as rank \|winners\| - i and names winners[i]. Ranks run from \|winners\| down to 1 |
| `LuckyDraw.LuckyDrawSection.constructor` | components/LuckyDrawSection.tsx:11-23 | a freshly shown tab has no winners, repeats off, no draw running, and every participant as a candidate |
| `LuckyDraw.LuckyDrawSection.ToggleRepeats` | components/LuckyDrawSection.tsx:97 | the flag flips and the candidate list is recomputed; winners and any running draw are untouched |
| `LuckyDraw.LuckyDrawSection.StartDraw` | components/LuckyDrawSection.tsx:36-57 | with an empty candidate list nothing changes. Otherwise the draw is marked running and the candidate list is captured |
| `LuckyDraw.LuckyDrawSection.FinishDraw` | components/LuckyDrawSection.tsx:55-67 | the captured candidate at the random index goes to the front of the winners, and the tail is the old winners. The draw stops and the pool is recomputed. A draw from a pool that excluded the winners keeps winner ids distinct |
| `LuckyDraw.LuckyDrawSection.ResetDraw` | components/LuckyDrawSection.tsx:70-75 | a confirmed reset empties the winners and recomputes the pool; a declined one changes nothing |
| `Common.DecimalRoundTrip` | components/LuckyDrawSection.tsx:79 | the decimal rendering of a rank reads back as that rank |
| `Grouping.SliceIntoGroups` | components/GroupingSection.tsx:24-32 | the loop's member lists are the consecutive pieces of the shuffled list, and the group ids are 1, 2, ... in order |
| `Grouping.SlicingShape` | components/GroupingSection.tsx:26-32 | there are ceil(n / size) groups. Their members joined in order give back the shuffled list. Every group but the last is full, and each holds between 1 and size |
| `Grouping.ChunkSizes` | components/GroupingSection.tsx:26-27 | the last group holds n mod size members, or size when that remainder is 0 |
| `Grouping.GroupingSection.GenerateGroups` | components/GroupingSection.tsx:15-36 | an empty list or a size that is not positive changes nothing. Otherwise the groups are the slicing of the shuffled list, numbered from 1, and their members are a permutation of the participants |
| `Grouping.NormalizeGroupSize` | components/GroupingSection.tsx:71 | NaN and 0 become 1, any other value is kept, so the stored size is never 0 and only a negative input is not positive |
| `Grouping.GroupingSection.constructor` | components/GroupingSection.tsx:10-13 | the tab opens with a group size of 4, no groups and nothing generated |
| `Grouping.GroupingSection.SetGroupSize` | components/GroupingSection.tsx:71 | the size becomes the normalised input; the groups are untouched |
| `Grouping.PreviewGroupCount` | components/GroupingSection.tsx:75 | the preview is the ceiling of n divided by the size (a size of 0 counts as 1), also for a negative size |
| `Grouping.PreviewMatchesGroups` | components/GroupingSection.tsx:75 | for a positive size the preview equals the number of groups the slicing produces |
| `Grouping.MaxMembers` | components/GroupingSection.tsx:42 | the export width is at least every group's size and equals some group's size |
| `Grouping.ExportGridShape` | components/GroupingSection.tsx:38-53 | without groups there is no export. Otherwise the width is the size of the largest group: at least every group's size and equal to one of them. Every row, and the header, has width + 1 cells. A row starts with `第 {groupId} 組`, then the members' names, then empty cells |

## Findings

| source | as written | input that shows it | evidently intended | confidence | as-written member | corrected member |
|---|---|---|---|---|---|---|
| components/InputSection.tsx:23-30 | the tally is a plain object literal `{}`. `acc[name]` yields an inherited member for a name such as "constructor", and `+ 1` turns it into a string that is never `> 1`. Assigning to `__proto__` is ignored | two participants, both named "constructor" | duplicates are flagged for every name, as the Set-based deduplication treats every name alike | high, not executed | `NameList.PlainObjectMissesDuplicate` (and `NameList.DuplicatesFlaggedAsWritten` for all inputs) | `NameList.HasDuplicatesIff`, on the tally `NameList.CountNames` computes |

The rest of the model uses the corrected tally, a map from name to count.

## Left out

- The name parser, the shuffle and the CSV writer are not part of this model. Parsed entries and the shuffled order are parameters; the export functions stop at the header and rows handed to the writer. Quoting, the byte-order mark and tokenisation are not modelled.
- File upload (the file reader, the `.csv` check, resetting the file input) is browser I/O.
- The "fill test names" button only sets the text area to a constant.
- The error message, the displayed name (`currentDisplay`), the cycling animation, its interval and timeout, and the confetti cue are display-only.
- The confirmation and alert dialogs: only the user's answer is modelled, as a boolean.
- LuckyDraw.LuckyDrawSection.StartDraw: requires that no draw is running. The code relies on the disabled start button for this and does not check it itself.
- The React effects that recompute the candidate list run after rendering; the model recomputes it within each operation.
- `Math.random` and floating point: the random index and the preview's `Math.ceil` over a floating-point quotient are modelled with integers.
- `parseInt` is abstracted to its result (a number, or NaN as `None`); how it reads digits from the text is not modelled.
- The duplicate badge shown next to each repeated name is rendering.
