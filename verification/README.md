# Verified model of the matching-decompilation engine

This project models the hard cores of the Python engine that runs a matching decompilation:
the C source walkers that must be right for every way the preprocessor can resolve a file, the
dynamic programs that score and recognise code, the shared work queue, the review ledgers and
their audit, the link-order check, and the edits and closures of the cheat stripper. Loops,
classes and arrays of the source stay loops, classes and arrays here; what they compute is a
function, and what that function means is stated over all inputs, all configurations or all runs.

`dafny verify dfyconfig.toml` checks everything.

| file | about |
|---|---|
| `Prelude.dfy`, `Sorting.dfy` | shared vocabulary; the library sort |
| `Preprocessor.dfy` | files with conditional directives, configurations, what a configuration keeps |
| `ScopeTokens.dfy`, `ScopeGroups.dfy`, `FileScope.dfy`, `ScopeCut.dfy` | the file-scope token finder, how it treats one conditional, what it guarantees, and where it gives up |
| `TuIndex.dfy`, `TuGroups.dfy`, `TuBodies.dfy`, `TuAccepts.dfy` | the translation-unit brace walk, how it treats one conditional, what acceptance means, and which files are accepted |
| `BraceMatch.dfy`, `MaskedText.dfy` | the comment and literal mask, the brace matcher; both on text put together from code, literals and comments |
| `EditDistance.dfy`, `HiLo.dfy` | the instruction score; HI16/LO16 rewriting |
| `Units.dfy`, `Dmpsx.dfy` | macro expansions in asm runs; placeholder words in vendored headers |
| `Helpers.dfy`, `MacroClosures.dfy` | the helper worklist; the macro closures |
| `EditApply.dfy` | choosing and applying strip edits |
| `LinkOrder.dfy` | the link-order check and rename chains |
| `Rotation.dfy`, `RotationRuns.dfy` | rotation and return in the work queue; how long an item can wait |
| `QueueSteps.dfy`, `QueueHistory.dfy`, `QueueRuns.dfy`, `QueueProgress.dfy` | the queue file under interleaved completions, regenerations and reviews: the steps, what a call has seen, the guarantees over all runs, and what a call comes to |
| `ReviewLog.dfy`, `ReviewMerge.dfy`, `ReviewRuns.dfy` | the review ledgers; how the audit reads them; reviews recorded at the same time |
| `Departures.dfy` | the audit of what left the queue |

How the source is read:

- A C file is a sequence of items, one per character of code and one per directive line
  (`Preprocessor`), or a string (`BraceMatch`). Well-nested files are the flattened trees `Text`; a
  configuration takes at most one arm of every conditional.
- Hashes and fingerprints are the values they digest. Dates and rotation stamps are numbers in the
  order of their text. Names that are only compared are numbers in the order of their text.
- Reference extraction, instruction keys, function heads, sibling moves, re-measured floors, scan
  outcomes, builds, and the bodies and addresses found at a commit are arbitrary functions or inputs.

Where the documentation and the code differ, the code is modelled:

- The mask of `engine/inlineasm.py:223` is documented to preserve newlines. It blanks a newline that
  is the second character of an escape inside a literal. `BraceMatch.MaskingOnlyBlanks` says exactly
  which newlines survive and `BraceMatch.EscapedLineEndIsLost` gives a text of three characters.
- `undmpsx` is documented as the inverse of `dmpsx`. It is so exactly on headers whose carrier macros
  do not already hold the words the first pass writes (`Dmpsx.RoundTrip`);
  `Dmpsx.AlreadyWrittenIsNotRestored` gives, for either order, a header on which it is not.
- The queue's rotation promises that nothing is foreclosed. A drained queue passes a waiting item over
  at most once for every item in front of it and once for every time it is overtaken
  (`RotationRuns.EveryItemComesBack`). An item is overtaken exactly by one that is put away with a
  smaller stamp, or with an equal stamp and a smaller sort key (`RotationRuns.WhoOvertakes`), and that
  can go on for any number of returns (`RotationRuns.StarvesOtherwise`). Stamps have a resolution of
  one second and follow the clock.
- The comments in `engine/queue.py:340-349` say that a completion during a scan makes the
  regeneration's save conflict, and that a listed item leaves only reviewed. A completion between the
  fingerprint and the listing, followed by somebody restoring the identical content, escapes both: the
  save goes through and drops the item unreviewed (`QueueRuns.RestoredItemIsDropped`).
  `QueueRuns.NothingLeavesUnreviewed` says that there is no other way.
- `engine/layer2.py:541-543` promises that a tie of dates is never broken by the order of the ledgers'
  paths. The dates are read and the line is appended without a lock. Over any run the audit can read
  wrongly only lines of calls that overlapped and wrote to different ledgers
  (`ReviewRuns.OnlyOverlapsMayTie`): two calls into one ledger are always read in order, two into
  different ledgers exactly when the later writer's stamp is greater, or equal and its ledger listed
  later (`ReviewRuns.InterleavedAppends`). In one second they tie, and the audit then takes the second
  review for the first (`ReviewRuns.OneSecondTwoLedgers`).

## Model

| member | source | states |
|---|---|---|
| `EditDistance.Levenshtein` | engine/score.py:299-313 | the two-row table ends at the prefix distance of the two whole lists |
| `EditDistance.ScoreIsTheCheapestScript` | engine/score.py:299-313 | that distance is the least cost over all insert/delete/substitute scripts, and some script attains it |
| `EditDistance.ZeroIffEqual` | engine/score.py:299-313 | the score is 0 exactly for equal lists |
| `EditDistance.Symmetric` | engine/score.py:299-313 | the score does not depend on the order of its arguments |
| `EditDistance.Triangle` | engine/score.py:299-313 | going through a third list is never cheaper |
| `EditDistance.Bounds` | engine/score.py:299-313 | the score lies between the difference of the lengths and the longer length |
| `EditDistance.MaskingNeverRaisesTheScore` | engine/score.py:279-293 | no per-instruction mask applied to both sides raises the score |
| `EditDistance.MaskedZeroMeans` | engine/score.py:289-293 | a masked score of 0 means equally long lists that agree in everything but branch targets |
| `HiLo.EmittedHalvesLink` | engine/score.py:190-198 | for every address and pair of fields the emitted halves recompose to the linked word modulo 2^32 |
| `HiLo.SameTokensIffSameWord` | engine/score.py:190-198 | two pairs get equal tokens exactly when their linked words are equal |
| `HiLo.OffsetMayMove` | engine/score.py:174-198 | an offset spelled in the symbol or in the low addend links to the same word, as long as the low half stays within signed 16 bits |
| `HiLo.LinkedMeans` | engine/score.py:174-189 | the linked word in plain numbers: the symbol's address, 65536 for each unit of the high field, and the low field as a signed number of 16 bits, modulo 2^32 |
| `HiLo.EmittedHalvesMean` | engine/score.py:190-198 | both emitted halves are fields of 16 bits, and read in the same plain way they give the linked word |
| `HiLo.ResolveNamedPair` | engine/score.py:174-198 | the in-place rewrite changes only the two instructions, and only when address and both immediates are known |
| `ScopeTokens.DefinitionView` | engine/inlineasm.py:573-608 | the first pass blanks exactly directives and dead arms, and reports for every item whether the code around it is live |
| `ScopeTokens.FileScopeTokens` | engine/inlineasm.py:612-658 | the second pass returns what the specified walk finds, the early return included |
| `FileScope.TokensAreFileScope` | engine/inlineasm.py:612-658 | in every possible configuration a kept offset is returned exactly when it is an identifier character at depth 0 before the limit; the limit is the end of the file or the conditional whose exits do not join |
| `FileScope.TokensAreKept` | engine/inlineasm.py:585-606 | every returned offset is kept by some possible configuration |
| `FileScope.GivesUpIffConfigurationsDisagree` | engine/inlineasm.py:638-648 | the finder gives up exactly on files in which two possible configurations end at different depths |
| `ScopeCut.LimitIsFirstTorn` | engine/inlineasm.py:638-648 | the offset where it gives up is that of the first conditional, in closing order, two of whose choices change the depth differently |
| `TuIndex.Index` | engine/inlineasm.py:1329-1451 | the functions are the walk's outermost pairs that have a head, in order; the file is refused exactly when the walk refuses it or a head, a directive or a macro is complained of (`TuAccepts.AcceptedIfTidy` says which files the walk accepts) |
| `TuIndex.HeadedAre` | engine/inlineasm.py:1395-1404 | a pair is a function exactly when the walk records it and its opening brace follows a head |
| `TuAccepts.AcceptedIfTidy` | engine/inlineasm.py:1329-1451 | the walk accepts a well-nested file if and only if the braces of the whole file and of every arm match on their own, file-scope parentheses match, and no opening brace and no directive at depth 0 stands inside open ones |
| `TuAccepts.AFunctionIsAccepted` | engine/inlineasm.py:1355-1404 | the smallest file that defines a function is accepted |
| `TuGroups.GroupQuiet` | engine/inlineasm.py:1329-1337 | a conditional the walk accepts leaves depth, open brace and arm counters as it found them |
| `TuBodies.KeptDepthIsTheWalks` | engine/inlineasm.py:1362-1404 | in an accepted file, however all but one arm of each group are dropped, every kept character is at the walk's depth, kept braces balance, and no body is cut in two |
| `TuBodies.OutermostPairsAreTheWalks` | engine/inlineasm.py:1395-1451 | the outermost brace pairs of any configuration are exactly the walk's pairs whose opening brace is kept |
| `BraceMatch.CodeWithoutCommentsAndStrings` | engine/inlineasm.py:223-266 | the in-place loops compute the specified mask |
| `BraceMatch.MaskingOnlyBlanks` | engine/inlineasm.py:223-266 | masking keeps the length, only ever blanks, keeps exactly plain code, and keeps a newline exactly when it is not escaped in a literal |
| `BraceMatch.EscapedLineEndIsLost` | engine/inlineasm.py:234-240 | a quote, a backslash and a line end: the line end is lost |
| `MaskedText.MaskOfPieces` | engine/inlineasm.py:223-266 | the mask of a text put together from plain code, string and character literals and comments is each piece's own: code as it is, everything else blank but for the line ends that are not escaped in a literal |
| `MaskedText.CountMeans` | engine/inlineasm.py:312-344 | counting from an offset answers just past the first closing brace at which one more had opened than closed since the offset, and -1 exactly when there is no such brace |
| `BraceMatch.MaskingIsIdempotent` | engine/inlineasm.py:223-266 | masking twice is masking once |
| `BraceMatch.MatchBrace` | engine/inlineasm.py:312-344 | on raw text the matcher answers what plain brace counting answers on the masked text, -1 included |
| `BraceMatch.KeptBraceIsCode` | engine/inlineasm.py:312-344 | the matcher may be started at every brace the mask keeps |
| `Units.Matches` | engine/gtemacro.py:567-591 | the unifier succeeds exactly when one substitution of the parameters turns the expansion into the run, up to the instruction key |
| `Units.InstanceMeans` | engine/gtemacro.py:567-591 | what such a substitution is, in full: as many statements, each volatile with the same clobbers and instruction keys, each operand under the same constraint, literal text as written and a parameter always as what it stands for |
| `Units.MatchUnit` | engine/gtemacro.py:594-602 | the answer is the first pinned macro, in pin order, that the run expands, and none exactly when there is none |
| `Units.SplitUnits` | engine/gtemacro.py:631-655 | the split is a consecutive cover by the fewest units of all covers, each named, and empty exactly when no cover exists |
| `Units.BestEntry` | engine/gtemacro.py:640-647 | the inner loop, window included, finds the fewest units for a prefix |
| `Units.ReadBack` | engine/gtemacro.py:650-655 | following the table back yields a cover of the whole run with as many units as the table says |
| `Units.UnitsFitTheWindow` | engine/gtemacro.py:637-642 | no unit is longer than the longest expansion, so the window loses none |
| `Units.WholeUnitWins` | engine/gtemacro.py:631-655 | a run that is one unit as a whole is split into one unit |
| `Units.ParseMacro` | engine/gtemacro.py:447-490 | expansion fails exactly on unknown callees and wrong arities, and is otherwise the concatenation of its parts |
| `Units.ArgumentsAre` | engine/gtemacro.py:480-483 | parameters and arguments are bound in order: the i-th parameter stands for the caller's parameter of that name, or else for the argument literally, the last of equal parameters counting |
| `Units.OwnStatementIs` | engine/gtemacro.py:466-470 | a statement of the macro's own keeps its instructions, and each operand is a parameter exactly when it is named like one |
| `Units.UnitsHaveCop2` | engine/gtemacro.py:594-602 | what is recognised as a unit is a pinned macro with a coprocessor-2 instruction |
| `Units.OnlyParamsCount` | engine/gtemacro.py:567-591 | only the values given to the parameters an expansion uses matter |
| `Units.ExpansionIsClosed` | engine/gtemacro.py:466-488 | an expansion uses only the macro's own parameters when its callees do |
| `Units.CompositeIsItsParts` | engine/gtemacro.py:474-488 | a run matches a composite exactly when it can be cut into stretches matching the parts, each callee under the substitution that gives its i-th parameter what the i-th argument means to the caller |
| `Units.CompositeCovers` | engine/gtemacro.py:447-490 | where every callee is itself a unit, a run matching the composite is covered by its callees, one unit a call |
| `Dmpsx.SwapWords` | engine/gtemacro.py:767-808 | the pass swaps in every line owned by a carrier `#define`, continuations included, and nowhere else |
| `Dmpsx.WordsRead` | engine/gtemacro.py:786-803 | each of the two words is the directive and eight digits that read back as the row's number, and going back they change roles |
| `Dmpsx.ReplaceIs` | engine/gtemacro.py:801-802 | in a swapped line every occurrence of the old word has become the new one, and what no occurrence covers is as it was |
| `Dmpsx.CarriedLineIsSwapped` | engine/gtemacro.py:765-808 | in the plain: a line is swapped by a row when that is the last row carrying the macro of the `#define` at whose line the backslashes above it begin, whatever follows the name there |
| `Dmpsx.OtherLineIsKept` | engine/gtemacro.py:797-799 | and is left alone when no row carries that macro |
| `Dmpsx.PlainLineIsKept` | engine/gtemacro.py:772-783 | or when those backslashes begin at no directive |
| `Dmpsx.OwnersAreKept` | engine/gtemacro.py:767-783 | a pass moves no macro boundary and renames no macro |
| `Dmpsx.LineRoundTrip` | engine/gtemacro.py:786-803 | in one line replacing back undoes replacing exactly when the new word was not there before |
| `Dmpsx.RoundTrip` | engine/gtemacro.py:806-848 | the two passes undo each other, in either order, exactly when no carrier line already holds a word the first one writes |
| `Dmpsx.AlreadyWrittenIsNotRestored` | engine/gtemacro.py:767-808 | for either order of the passes, a one-line header that already holds the word the first one writes, and is not restored |
| `Helpers.InlineHelpers` | engine/inlineasm.py:1674-1684 | on any reference graph, cycles included, the worklist ends with the least set closed under references from the function, itself excluded; the helpers come each once, in the order of their definitions in the file |
| `Helpers.ReachedByAChain` | engine/inlineasm.py:1656-1684 | the helpers are exactly those at the end of a chain: the function's text refers to the first, some definition of each to the next, the function itself never being one |
| `Helpers.AttributedSpans` | engine/inlineasm.py:1687-1706 | the result is the function's span and then each reached helper's, with its name, in file order; no definition at all is an empty list, an ambiguous function or helper is an error |
| `Helpers.CheatCount` | engine/inlineasm.py:1709-1740 | the count is the number of strip spans starting in the function or a reached helper, plus the volatile count, with the -1 and asm-body cases |
| `Helpers.HelperHitsCount` | engine/inlineasm.py:1735-1737 | a strip span starting in any reached helper makes the count positive |
| `MacroClosures.GrowInPass` | engine/gtemacro.py:1260-1268 | the in-pass closure ends with the least set closed under aliases |
| `MacroClosures.GrowByRounds` | engine/inlineasm.py:1424-1433 | so does the round-by-round closure |
| `MacroClosures.ClosureIsTheChains` | engine/gtemacro.py:1260-1268 | either set is exactly the names from which a chain of definitions leads into the base, each mentioning the next other than as its own parameter |
| `MacroClosures.BaseIs` | engine/gtemacro.py:1254-1259 | the base, name by name: a definition of it is a seed or mentions one |
| `MacroClosures.OrderAndMethodAreIrrelevant` | engine/volatile_cheats.py:1537-1546 | both agree, and the order of the definitions does not matter |
| `EditApply.Select` | engine/volatile_cheats.py:1749-1759 | the filter keeps what the specified greedy choice keeps |
| `EditApply.SelectionIsSound` | engine/volatile_cheats.py:1749-1759 | kept edits are pairwise disjoint and every dropped edit overlaps a kept one |
| `EditApply.WhoWins` | engine/volatile_cheats.py:1749-1759 | every dropped edit overlaps a kept one that starts further right, or there and ends further right, or has the same span and a text that sorts no earlier |
| `EditApply.Apply` | engine/volatile_cheats.py:1760-1763 | splicing one by one from the right equals rewriting the original text at once |
| `EditApply.RewrittenFromLeft` | engine/volatile_cheats.py:1760-1763 | the rewritten text read from the left: what stands before the first edit, its replacement, and then the rest rewritten |
| `EditApply.StripFile` | engine/volatile_cheats.py:1723-1763 | the whole pass: the rewrite of the original by the kept edits, and their number |
| `EditApply.DetectorOrderIsIrrelevant` | engine/volatile_cheats.py:1723-1750 | the order in which detectors report does not change what is kept |
| `LinkOrder.Search.Visit` | engine/tus.py:142-154 | a visit returns a genuine cycle or finishes the unit and everything below it |
| `LinkOrder.FindCycle` | engine/tus.py:137-161 | the search ends, returns a closed walk of edges when it returns one, and none exactly on acyclic graphs |
| `LinkOrder.BuildSuccessors` | engine/tus.py:107-113 | an edge is there exactly when some section puts the one unit directly after the other |
| `LinkOrder.CheckOrder` | engine/tus.py:107-118 | a problem is reported exactly when no total order respects every section, and then with a cycle each of whose steps a section makes |
| `LinkOrder.RespectedSectionNeverReturns` | engine/tus.py:108-118 | in a respected section no unit comes back after another |
| `LinkOrder.Resolve` | engine/tus.py:189-196 | the rename chain ends at a current id exactly when it ever reaches one; else at an id it meets twice |
| `Rotation.Queue.MarkRotated` | engine/queue.py:911-933 | the item is put away with the given stamp, nothing else changes, and the list is sorted again |
| `Rotation.ListOrder` | engine/queue.py:314-324 | in a sorted list status rank comes first, then rule debt, distance, file and name |
| `Rotation.Queue.MarkUnparked` | engine/queue.py:1157-1185 | only a rotated item is brought back, and nothing else changes |
| `Rotation.Queue.Reopen` | engine/queue.py:1188-1217 | only a function not listed and with an address is added, active |
| `Rotation.Queue.Drop` | engine/queue.py:797-800 | completion takes out one function and nothing else |
| `Rotation.Queue.AutoReturn` | engine/queue.py:1054-1134 | item by item: whose sibling moved comes back, and whose measured floor differs from the last on record, or with none from its distance, comes back with that floor; of the others at most one, and then nothing else is active; a legacy item is rotated and stamped now unless it has a stamp; everything else is as it was; and if nothing is active after the returns, the first in the list of the rotated items with the least stamp comes back; written only when something changed or the fingerprint asks for it |
| `Rotation.Queue.NextItem` | engine/queue.py:624-635 | work is returned exactly when anything is active, rotated or in a legacy status; it is the first active item of the list, hence the least by the sort key while the list is sorted |
| `Rotation.FirstComesBack` | engine/queue.py:1124-1128 | for every list, the stable sort by stamp puts first the first in the list of the rotated items with the least stamp |
| `RotationRuns.EveryItemComesBack` | engine/queue.py:1092-1134 | over any run, whatever the stamps, the rule debt and the regenerations: an item neither put away again nor removed is active before the queue has drained more often than there were items in front of it and than it was overtaken, taken together |
| `RotationRuns.WhoOvertakes` | engine/queue.py:911-934 | in a sorted list, an operation other than a regeneration lets an item overtake another exactly by putting it away with a smaller stamp, or an equal one and a smaller key |
| `RotationRuns.ComesBackInTurn` | engine/queue.py:1092-1134 | so, while no event is of that kind, an item with k in front is active by the (k+1)-th drain |
| `RotationRuns.ComesBackWhateverTheTies` | engine/queue.py:1092-1134 | whatever regenerations and changed rule debts do to the order among equal stamps: an item with k others put away no later is active by the (k+1)-th drain, if nothing else is put away in the meantime with a stamp no later than its own |
| `RotationRuns.TurnInPlace` | engine/queue.py:1125-1128 | for every sorted list with nothing active: the first of the oldest comes back, and putting it away with the stamp it had restores the list |
| `RotationRuns.StarvesOtherwise` | engine/queue.py:911-934 | from every such list, for every n there is a run of n drains in which any other waiting item is never active: the item in front goes away again with its old stamp each time |
| `QueueSteps.LockKeepsOthersOut` | engine/queue.py:120-155 | while a process holds the lock only it and writers outside the lock change the file |
| `QueueRuns.LockedSavesAreSerial` | engine/queue.py:782-800 | a locked save that no outside writer hits (as above) applies its mutation to exactly the content it overwrites, and a completion never writes over an emptied queue |
| `QueueSteps.FileIsKnown` | engine/queue.py:171-187 | in a call that no writer outside the lock hits between load and fingerprint, or between check and replacement, what was loaded is what the fingerprint is of, and before the replacement the file still holds it |
| `QueueSteps.OnlyOutsidersDisturb` | engine/queue.py:120-187 | without writers outside the lock every call is such a call |
| `QueueHistory.History` | engine/queue.py:334-366 | what any process holds at any moment was read at moments of that call, in the order of its steps: the files, and for each open gate the body, then the last ledger line, then the address |
| `QueueRuns.RegenReplacesItsToken` | engine/queue.py:340-343 | every regeneration that no outside writer hits replaces exactly the content its fingerprint was taken from, whatever was written in between |
| `QueueRuns.QuietListing` | engine/queue.py:343-351 | a regeneration lists the content of its fingerprint unless the file was written between the two reads |
| `QueueRuns.DoneDuringScanStands` | engine/queue.py:340-343 | a completion landing at any moment after the fingerprint, before or after the listing, is undone only if the identical content is back at the save, and then somebody else had put the item back |
| `QueueRuns.RegenKeepsTheUnreviewed` | engine/queue.py:593-602 | whatever the scan finds or fails to find, a listed item is dropped only if its gate was seen open in that call |
| `QueueRuns.PassesAreVouched` | engine/layer2.py:504-557 | every PASS in any ledger was there at the start or was appended by a call during which the source held the body it names |
| `QueueRuns.NothingLeavesUnreviewed` | engine/queue.py:769-800 | whoever saves, not hit by an outside writer: a function leaves the queue only if in that same call, one after the other, the source held a body, a PASS on it, vouched for by its own recording, was its ledger's last line, and it stood at that line's address; or the saver is a regeneration whose listing lacked it, and somebody put it back afterwards |
| `QueueProgress.GateOpens` | engine/layer2.py:585-631 | whatever the three reads see: the gate opens exactly when the last line of the ledger is a PASS on the body read before and carries the address read after, however long the ledger is; else a completion is over and a regeneration keeps the item |
| `QueueProgress.OpenCompletionSaves` | engine/queue.py:769-800 | over any run: a completion that does not give up, while one line of its function's ledger stands the gate open, is under way until it saves, and that save, unless a writer outside the lock hits it, takes out its function and nothing else |
| `QueueProgress.CompletionAlone` | engine/queue.py:769-800 | from any state with the lock free, a completion whose gate stands open can run to its end and removes exactly its function |
| `QueueProgress.CompletionRefused` | engine/queue.py:769-781 | with the gate shut it ends with the queue as it was |
| `QueueProgress.NeverOverAnEmptiedQueue` | engine/queue.py:782-800 | over any run: the save of a completion takes out its own function only, and never goes over a queue that vanished or was emptied since its call began, unless a writer outside the lock hits it |
| `QueueProgress.ReviewAlone` | engine/layer2.py:487-557 | a review that nobody disturbs becomes the last line of its function's ledger, and the gate then stands open exactly for a PASS |
| `QueueProgress.ReviewedThenDone` | engine/queue.py:769-800 | so whatever was recorded before, a listed function whose current body gets a PASS can be completed |
| `QueueProgress.RegenerationAlone` | engine/queue.py:334-622 | a regeneration that nobody disturbs leaves exactly the functions its scan found and, of those listed, the ones whose gate is shut |
| `QueueRuns.RestoredItemIsDropped` | engine/queue.py:358-360 | the second case happens: a run without outside writers in which a regeneration drops an item whose gate was never open during its call |
| `QueueRuns.WriteBeforeTheFingerprintIsLost` | engine/queue.py:175-187 | a run in which a write from outside, between load and fingerprint, is lost |
| `ReviewLog.Log.AddrDates` | engine/layer2.py:560-579 | the loop yields the effective dates of all lines about an address, in all ledgers |
| `ReviewLog.EffectiveIsGreatest` | engine/layer2.py:560-579 | a line's effective date is the greatest date up to it in its file |
| `ReviewLog.Log.Stamp` | engine/layer2.py:522-547 | the date stamped is the clock, or one past the greatest effective date about the address, or the greatest date of its own ledger, whichever is latest; refused exactly when no date is left |
| `ReviewLog.StampIsLeast` | engine/layer2.py:522-547 | no earlier date is at or past the clock, past every line about the address and no earlier than every line of its own ledger |
| `ReviewLog.Log.Write` | engine/layer2.py:548-557 | appending a line whose date was read at any earlier time keeps the order, and leaves every other call under way as ready to write as it was |
| `ReviewLog.Log.Append` | engine/layer2.py:487-557 | a call in one go: appended exactly when it may be, with the stamp of that moment; what is recorded after it is dated later |
| `ReviewLog.Log.Archive` | engine/layer2.py:142-145 | moving a whole ledger, even between the two halves of other calls, keeps the order and leaves those calls ready to write |
| `ReviewLog.AppendKeepsDates` | engine/layer2.py:525-553 | whatever the clock does and however many calls are under way: of two lines about one address the later counts as strictly later, over all ledgers, whenever its call read the dates after the earlier one was written |
| `ReviewRuns.OnlyOverlapsMayTie` | engine/layer2.py:525-557 | over any run of any number of calls, for any listing of the ledgers: the audit reads an address in recording order exactly when its overlapping calls into different ledgers are put in order |
| `ReviewRuns.NoListingMatters` | engine/departures.py:34-38 | every listing gives the recording order exactly when overlapping calls into different ledgers are dated strictly one after the other |
| `ReviewRuns.InterleavedAppends` | engine/layer2.py:525-557 | two calls that read before either writes: the audit's order holds exactly when they write to one ledger, or the later writer's stamp, a function of the clock and the ledgers it read, is greater, or equal and its ledger listed later |
| `ReviewRuns.OneSecondTwoLedgers` | engine/layer2.py:541-543 | two such calls at one second into two ledgers, read in the wrong order |
| `ReviewMerge.Records` | engine/departures.py:339-363 | the audit's merge yields for every address its lines, in recording order exactly when the compared keys (date, file, line) are in that order |
| `ReviewMerge.RecordingOrderIsOne` | engine/departures.py:339-363 | there is only one such order |
| `Departures.FindAnchor` | engine/departures.py:427-438 | the anchor is the oldest logged change giving a fully addressed version |
| `Departures.NoFullVersion` | engine/departures.py:427-438 | there is no anchor exactly when no logged commit holds a version that gives every item its address |
| `Departures.AuditedCommits` | engine/departures.py:439-449 | the worklist yields exactly the anchor and its descendants |
| `Departures.Departed` | engine/departures.py:465-482 | reading only the changes, the departed addresses are exactly those some audited version lists and the working tree does not |
| `Departures.EveryDepartureHasAPoint` | engine/departures.py:484-503 | every address an audited version lists is in the newest version or left at some audited commit |
| `Departures.LastLeft` | engine/departures.py:484-503 | each departed address gets the working tree or the newest audited commit at which it left, with its item just before |
| `Departures.TheDeparted` | engine/departures.py:465-503 | in the plain: departed are the addresses that some audited commit's version lists and the working tree does not; one that the newest version lists left in the working tree, as that version has it; else a parent's version has the item |
| `Departures.TheNewestDeparture` | engine/departures.py:484-503 | a departure in a commit: its version does not list the address and a parent's does, and every other audited commit of which that holds is older |
| `Departures.TheFaults` | engine/departures.py:465-479 | the faults are the audited commits whose version is at fault, except where every parent already had that very version |
| `Departures.VerdictIsLatest` | engine/departures.py:529-537 | the verdict used is that of the record made last on that body, in any ledger; before the cutoff the definition's own key counts as the body |
| `Departures.Clear` | engine/departures.py:506-546 | an address is cleared exactly by a PASS recorded last on the body it left with or, if it left with none, on the body of another recorded name that stands at that address there |
| `Departures.ItsBodyDecides` | engine/departures.py:506-538 | with a body under its name, where the sources give that name this address or none, an address is cleared exactly when the record made last on that body, in any ledger, is a PASS |
| `Departures.AStandInDecides` | engine/departures.py:524-546 | with no name, a name at another address or no body under it, exactly when another recorded name that the sources place at the address has a body so reviewed |
| `Departures.Audit` | engine/departures.py:398-570 | nothing is audited exactly without a readable working tree or an addressed version; otherwise the departed addresses each have their point, the violations are exactly those not cleared, and the faults exactly the audited commits whose version is itself faulty; for ledgers that the merge reads in recording order |
| `Departures.ReviewedIsNoViolation` | engine/departures.py:506-570 | the first of these two for the violations the audit reports |
| `Departures.StandInIsNoViolation` | engine/departures.py:524-570 | and the second |

## Left out

- `QueueProgress.GateOpens`: the refusals of a translation unit that its own walk finds unsafe, and of a function without exactly one body, come before the reads modelled here; a function without exactly one body counts as one without a body.
- `QueueProgress.CompletionAlone`: what else a completion checks before its removal (the build, the cheat counts) is not modelled; where that refuses, the call stops.
- `TuIndex.Index`: which braces follow a function head, and what is complained of besides the walk, are inputs; the C grammar of heads, macros and `extern "C"` blocks is not modelled. The walk is that of a source file, where no linkage exception applies.
- `ScopeTokens.FileScopeTokens`: returns the offsets of identifier characters over items; mapping masked offsets back to text offsets and the digraph spellings of braces are taken as done.
- `Units.SplitUnits`: the library is not empty, since the program takes a maximum over it.
- `Helpers.InlineHelpers`: the shadowing rules inside reference extraction are not modelled.
- `HiLo.ResolveNamedPair`: one HI16/LO16 pair; several loads sharing one lui are not modelled.
- `Rotation.Queue.AutoReturn`: the reasons and counters carried along, and how the toolchain re-measure gets its floors, are not modelled.
- `QueueRuns.NothingLeavesUnreviewed`: a write from outside the lock between a call's load and fingerprint, or between its check and its replacement, is outside the guarantee (`WriteBeforeTheFingerprintIsLost` shows why); a function has one body; a platform without any file lock is not modelled.
- `QueueRuns.RegenKeepsTheUnreviewed`: routing, verdicts and distances of the scan are arbitrary; only which functions it lists matters.
- `ReviewLog.Log.Stamp`: reading the dates of all ledgers is one step. Malformed ledger lines, missing addresses and missing fields are refused by the program before anything modelled here happens.
- `Departures.Audit`: for ledgers that the merge reads in recording order, which `ReviewMerge.Records` and `ReviewRuns.OnlyOverlapsMayTie` characterise; HEAD's version is the newest logged one; grafts, git failures and working-tree items without an address are not modelled.
- `Dmpsx.SwapWords`: a header is its list of lines; reading bytes, line-end conversion and digests are not modelled.
- The spellings of cheat constructs, policy allowlists and message texts: one pattern each.
- Compiling, linking, disassembling, git and issue tracking: tools that cannot be seen.
- The command line, dossiers and reports: easy members.
