# Verified models of the notification service and its bundled editor

This project models, in Dafny, the parts of the repository where the logic is
hardest to see from the code, and proves what they promise:

* **The event-filter language** (`Dsl*.dfy`): the shunting-yard translator and the
  stack machine of the filtering demo, as a compiler from infix tokens to postfix
  that preserves meaning.
* **The document core of the bundled CodeMirror editor** (`Cm*.dfy`): changes to a
  text, the tree of lines with its cached sizes and heights, the undo history with
  its generation numbers, selections, and tab columns.
* **The notification protocol** (`Differ*.dfy`): what the differ selects, sends and
  stores for a cluster, and what holds over any number of runs on the same tables.
* **The Service Log producer** (`ServiceLogProducer.dfy`): the send loop with token
  refresh and doubling delays.

The tree of lines is a heap of linked objects (`CmLineShape.dfy`, `CmLineEdits.dfy`,
`CmLineTree.dfy`): every operation is proved to keep its links, parents and caches and to
do to the document what it would do to a flat list. Changes of the text
(`CmUpdateDoc.dfy`) are made on that tree, and the document with its undo history
(`CmHistoryDocument.dfy`) on top of them.

`Wrappers.dfy` and `Splices.dfy` hold result types and sequence facts used by the
others. Code that works step by step is an imperative method or class here, proved
against a specification function; what the source promises is then proved about that
function, for every input and over whole runs. `DslLaws.dfy`, `DifferLaws.dfy` and
`CmHistoryLaws.dfy` say what single steps do without naming the tables and functions
that the methods share with their specifications.

`dafny verify dfyconfig.toml` checks everything.

## Where the code does not keep its promises

Five promises turned out to be false of the code. Each has a lemma with a concrete run
that breaks it and a lemma with the exact condition under which it holds. The models
follow the code.

* *The cool-down is the minimum time between repeated notifications of one issue*
  (`docs/configuration.md:87` and `:128`, `docs/data_flow.md:31-36`). It is not: a sent
  record without the issue, written in between, makes the issue new again
  (`DifferFindings.RepeatedWithinCooldown`, exact condition
  `DifferFindings.SelectedWithinCooldownIff`).
* *A run compares with the records in the sent state.* The query asks for state number 1,
  whatever number the sent state has. It finds the sent records exactly when that number
  is 1 (`DifferFindings.ComparesWithSentIff`). With another number it finds the records of
  the same or the error state, when one of these is number 1, and hits that were never
  sent are held back; otherwise nothing is ever in cool-down
  (`DifferFindings.FindsUnsentIff`, `DifferFindings.UnsentIsBaseline`).
* *The table refuses a second read error for one report* (`differ/differ.go:746-750`). Its
  unique key holds the number of the error too
  (`docs/db-description/notification.public.xml:96-101`), so a row is stored twice when
  the question whether it exists is not answered (`DifferFindings.ReadErrorStoredTwice`,
  exact condition `DifferRuns.ReadErrorsOnce`).
* *Undo goes back to an earlier text, and `isClean` tells whether the text is the marked
  one.* A selection made in the operation that redid a change overwrites the event of
  that change (`CmHistoryFlaws.ClobberedUndoIsWrong`, exact condition
  `CmHistoryInvariant.SelectIsTruthfulIff` with `CmHistoryInvariant.ClobberGuard`).
* *`isClean` after `clearHistory`.* Clearing while there is something to redo gives the
  current text the generation of a newer one (`CmHistoryFlaws.RelabeledIsClean`, exact
  condition `CmHistoryInvariant.ClearIsTruthfulIff`, and over runs
  `CmHistoryFlaws.ClearAfterRunIff`).

The theorems over runs of the history are about sound runs: every step meets these two
exact conditions, which is the same as keeping the promise
(`CmHistoryInvariant.StepTruthfulIff`).

## Model

| member | source | states |
|---|---|---|
| DslTokens.Wrap | docs/demos/dsl-events-filtering/evaluator.go:45-61 | Go arithmetic wraps: the result is the 64-bit value congruent to the exact one, and the exact one when that fits |
| DslTokens.TruncatedDivision | docs/demos/dsl-events-filtering/evaluator.go:49-50 | `/` and `%` truncate: they are the only quotient and remainder with x = q*y + r, \|r\| < \|y\| and r of the sign of x |
| DslShuntingYard.ToRPN | docs/demos/dsl-events-filtering/shunting_yard.go:60-129 | the scanning loop with its operator loop, paren loop and final flush computes the specification `Rpn`, for every token list; None is the panic |
| DslShuntingYard.PopOperatorsStops | docs/demos/dsl-events-filtering/shunting_yard.go:97-117 | an operator sends every waiting operator of the same or a higher priority to the output, the last one first, and nothing below them |
| DslShuntingYard.PopToParenFinds | docs/demos/dsl-events-filtering/shunting_yard.go:74-90 | a right paren sends everything down to the nearest left paren to the output and drops that paren |
| DslSyntax.Print | docs/demos/dsl-events-filtering/shunting_yard.go:34-53 | every tree has an admissible spelling, with at least the parentheses that the tiers of the language require |
| DslSyntax.PriorityIsTier | docs/demos/dsl-events-filtering/shunting_yard.go:34-53 | the priority table puts every operator in its tier: * / % before + - before the relations before && before \|\| |
| DslSyntax.PrintIsShortest | docs/demos/dsl-events-filtering/shunting_yard.go:34-53 | of all admissible spellings of a tree the printed one is the shortest, and no other is as short |
| DslCompiler.ScanPhrase | docs/demos/dsl-events-filtering/shunting_yard.go:60-120 | operator-stack invariant: on a stack that binds more loosely, reading a phrase leaves exactly its right spine waiting and everything else in the output |
| DslCompiler.TranslationIsPostorder | docs/demos/dsl-events-filtering/shunting_yard.go:34-129 | every spelling of a tree with at least the required parentheses, with ignored tokens anywhere in it, is translated to exactly the postorder of the tree |
| DslCompiler.RunPostorder | docs/demos/dsl-events-filtering/evaluator.go:65-101 | running the postorder of a tree on any stack pushes the value of the tree, or stops with its failure |
| DslCompiler.CompilerPreservesMeaning | docs/demos/dsl-events-filtering/events_filter.go:31-64 | translating and running an expression gives one value, the meaning of the tree, exactly when it has that meaning; an unbound name or a zero divisor ends the run in the same way as in the tree; the rows of DslLaws say what each operator means |
| DslCompiler.EvaluateFilter | docs/demos/dsl-events-filtering/events_filter.go:46-60 | translator and machine, one after the other, return the meaning of the expression |
| DslLaws.TwoOperators | docs/demos/dsl-events-filtering/shunting_yard.go:93-117 | of two operators between any three operands the second goes out first if and only if it is in a strictly tighter tier; otherwise the first does |
| DslLaws.SumsAndProducts | docs/demos/dsl-events-filtering/evaluator.go:46-48 | a run over x, y and +, - or * replaces them, on any stack, by exactly the 64-bit value congruent to x + y, x - y or x * y |
| DslLaws.QuotientsAndRemainders | docs/demos/dsl-events-filtering/evaluator.go:49-50 | with a divisor other than 0, / and % push the one quotient and remainder with x = q*y + r, \|r\| < \|y\| and r of the sign of x; the one quotient that does not fit is x again, with remainder 0 |
| DslLaws.DivisionByZero | docs/demos/dsl-events-filtering/evaluator.go:49-50 | with 0 on top an operator panics if and only if it is / or %, and the operands are gone |
| DslLaws.Relations | docs/demos/dsl-events-filtering/evaluator.go:51-56 | each relation pushes 1 if it holds of x and y in this order, and 0 if not |
| DslLaws.Connectives | docs/demos/dsl-events-filtering/evaluator.go:57-58 | && pushes 0 if and only if an operand is 0, \|\| if and only if both are, and otherwise 1 |
| DslLaws.OtherTokens | docs/demos/dsl-events-filtering/evaluator.go:79-115 | integers and bound names are pushed; an unbound name and any other token end the run with the stack as it is; an operator short of operands ends it with an empty stack |
| DslEvaluator.Stack.Push | docs/demos/dsl-events-filtering/stack.go:29-31 | the value is added on top |
| DslEvaluator.Stack.Pop | docs/demos/dsl-events-filtering/stack.go:34-48 | the top is taken off; an empty stack is an error and stays empty |
| DslEvaluator.PerformArithmeticOperation | docs/demos/dsl-events-filtering/evaluator.go:105-126 | the right operand is popped first; the machine replaces both by the value that the rows of DslLaws state; too few operands leave what is left of the stack |
| DslEvaluator.Evaluate | docs/demos/dsl-events-filtering/evaluator.go:65-101 | the loop over the tokens computes the machine `Run`, with its stack and its first failure; the rows of DslLaws state its single steps |
| DslForest.ForestIsUnique | docs/demos/dsl-events-filtering/evaluator.go:65-101 | a postfix list is the postorder of at most one forest: reading is the inverse of writing, both ways |
| DslForest.SpellingIsUnambiguous | docs/demos/dsl-events-filtering/shunting_yard.go:34-53 | two admissible spellings with the same tokens stand for the same tree |
| DslForest.EvaluateAcceptsForests | docs/demos/dsl-events-filtering/evaluator.go:65-101 | a run succeeds with given values if and only if the list is the postorder of a forest whose trees have these values, in this order |
| DslForest.FinalStackHeight | docs/demos/dsl-events-filtering/evaluator.go:65-101 | a successful run leaves as many entries as there are operands less operators |
| DslYardInvariants.RisingStackIsLow | docs/demos/dsl-events-filtering/shunting_yard.go:93-120 | a stack whose priorities rise strictly between left parens holds at most five operators per stretch |
| DslYardInvariants.ShiftAccounts | docs/demos/dsl-events-filtering/shunting_yard.go:60-120 | one token keeps the accounts (rising stack, parens open, operands in order, every operator in stack or output) and panics exactly on a right paren with none open |
| DslYardInvariants.PanicsOnUnmatchedRight | docs/demos/dsl-events-filtering/shunting_yard.go:74-90 | the translator panics if and only if some right paren has no left paren before it |
| DslYardInvariants.StackHeightBound | docs/demos/dsl-events-filtering/shunting_yard.go:60-120 | after every token the stack rises between left parens and holds at most 5 + 6 * (open parens) tokens |
| DslYardInvariants.TranslationConserves | docs/demos/dsl-events-filtering/shunting_yard.go:60-129 | each operand and operator is in the output as often as in the input, operands in order; parens left open are the only other tokens, and there are none exactly when the list is balanced |
| CmText.InverseUndoes | docs/db-description/bower/codemirror/codemirror.js:4733-4739 | a history entry undoes its change, and the entry of the undo is the change itself |
| CmText.StretchedEntryUndoesBoth | docs/db-description/bower/codemirror/codemirror.js:4777-4787 | stretching the end of an entry over an insertion at that end still undoes both changes at once |
| CmText.SpliceIsFlatSplice | docs/db-description/bower/codemirror/codemirror.js:4626-4675 | on the text as one string, a change replaces the characters between two offsets and nothing else |
| CmText.BetweenIsFlatSlice | docs/db-description/bower/codemirror/codemirror.js:412-422 | getBetween is the slice of that string between the two offsets |
| CmText.AdjustIsMonotone | docs/db-description/bower/codemirror/codemirror.js:4550-4557 | adjustForChange never reorders two positions |
| CmText.AdjustBefore | docs/db-description/bower/codemirror/codemirror.js:4550-4557 | the text in front of a position before the change stays in front of it |
| CmText.AdjustAfter | docs/db-description/bower/codemirror/codemirror.js:4550-4557 | from the end of the change on, offsets move by the inserted less the removed length and the text behind them is unchanged |
| CmText.AdjustInside | docs/db-description/bower/codemirror/codemirror.js:4550-4557 | a position the change covers goes to the end of the inserted text |
| CmText.Clip | docs/db-description/bower/codemirror/codemirror.js:502-513 | clipping gives a position of the document, leaves one that is, and stays on a line that exists |
| CmText.ClipIsNearest | docs/db-description/bower/codemirror/codemirror.js:502-513 | no position of the document lies between a position and the clipped one; with staying on the line, this determines it |
| CmText.Clipped | docs/db-description/bower/codemirror/codemirror.js:5383-5388 | any two positions become a valid change with this text, between the two clipped positions in order |
| CmText.Fitted | docs/db-description/bower/codemirror/codemirror.js:5306-5317 | a change that starts on a line of the document is cut to a valid one, and one that fits is left as it is |
| CmUpdateDoc.FlatIsInjective | docs/db-description/bower/codemirror/codemirror.js:4626-4675 | the text as one string determines the lines, so nothing is lost in that reading |
| CmUpdateDoc.WholeLineIsSplice | docs/db-description/bower/codemirror/codemirror.js:4647-4653 | the whole-line branch is the same splice as the others |
| CmUpdateDoc.LineDoc.UpdateDoc | docs/db-description/bower/codemirror/codemirror.js:4626-4675 | on the tree of lines, each of the five branches leaves exactly the text of the one splice, cut to the size of the document, in a valid tree; every line it adds or touches has the height estimated for its text, and all others keep theirs |
| CmUpdateDoc.LineDoc.constructor | docs/db-description/bower/codemirror/codemirror.js:5993-6012 | a new document has the text it is given, each line with its estimated height |
| CmUpdateDoc.LineDoc.GetBetween | docs/db-description/bower/codemirror/codemirror.js:412-422 | the visit of the lines collects the text between two positions, also where one lies beyond its line or the last line |
| CmUpdateDoc.LineDoc.ClipPos | docs/db-description/bower/codemirror/codemirror.js:502-513 | the clipped position, from the cached size and one line |
| CmUpdateDoc.LineDoc.UpdateLine | docs/db-description/bower/codemirror/codemirror.js:1852-1861 | one line has the new text and the height estimated for it, every other line keeps its height, and the height cached at the root changes by the difference |
| CmUpdateDoc.LineDoc.NewLines | docs/db-description/bower/codemirror/codemirror.js:4632-4637 | new lines have their texts and the heights estimated for them |
| CmUpdateDoc.LineDoc.InsertLines | docs/db-description/bower/codemirror/codemirror.js:4632-4637 | texts, heights and line objects all get new ones at one place, and the others keep theirs |
| CmUpdateDoc.LineDoc.RootWeighs | docs/db-description/bower/codemirror/codemirror.js:1859-1860 | the height cached at the root is the sum of the heights of the lines |
| CmUpdateDoc.LineDoc.EstimatesStay | docs/db-description/bower/codemirror/codemirror.js:4626-4675 | if every line has its estimated height before a change, every line has it afterwards |
| CmUpdateDoc.LineDoc.ReplaceAll | docs/db-description/bower/codemirror/codemirror.js:4644-4646 | the branch for the whole document |
| CmUpdateDoc.LineDoc.ReplaceWholeLines | docs/db-description/bower/codemirror/codemirror.js:4647-4653 | new line objects take the place of the replaced ones, and the line after them is kept as the object it is, with all that follow |
| CmUpdateDoc.LineDoc.ReplaceInLine | docs/db-description/bower/codemirror/codemirror.js:4654-4662 | a change within one line: that line object and all others are kept, new ones follow it |
| CmUpdateDoc.LineDoc.JoinLines | docs/db-description/bower/codemirror/codemirror.js:4663-4665 | a change over several lines with one line of text: the first line object is kept, the others it covers go |
| CmUpdateDoc.LineDoc.ReplaceBothEnds | docs/db-description/bower/codemirror/codemirror.js:4666-4672 | a change over several lines with more text: the first and the last line object are kept, new ones come in between |
| CmReverting.AntiReverts | docs/db-description/bower/codemirror/codemirror.js:5239-5272 | reverting an event collects entries that revert the reverting, and doing so collects the first entries again |
| CmUndoCore.UndosThenRedos | docs/db-description/bower/codemirror/codemirror.js:5203-5272 | n undos and n redos give back the text, the generation and both stacks, entry for entry |
| CmHistory.StepKeepsWf | docs/db-description/bower/codemirror/codemirror.js:4767-4849 | every action keeps a selection below every change event and the generation counters in order |
| CmHistory.TrimKeepsMost | docs/db-description/bower/codemirror/codemirror.js:4795-4798 | a stack within undoDepth is left alone; of a longer one the longest end of at most undoDepth entries that does not begin with a change is kept, so at least undoDepth - 1 entries |
| CmHistory.TrimKeepsTop | docs/db-description/bower/codemirror/codemirror.js:4795-4798 | dropping the oldest events spares the newest if and only if undoDepth is at least 2 |
| CmHistoryDocument.Document.FindLastChangeEvent | docs/db-description/bower/codemirror/codemirror.js:4752-4762 | pops what is in the way and says whether a change event is on top of the rest |
| CmHistoryDocument.Document.DropOldest | docs/db-description/bower/codemirror/codemirror.js:4795-4798 | the oldest events go while more than undoDepth entries are left, each with the selection below it, and no others (TrimKeepsMost) |
| CmHistoryInvariant.ExtendReverts | docs/db-description/bower/codemirror/codemirror.js:4777-4787 | a merged event still leads back to the text before its first change |
| CmHistoryInvariant.ClobberGuard | docs/db-description/bower/codemirror/codemirror.js:4830-4834 | a selection overwrites a change event if and only if one is on top and the operation number is that of the last selection |
| CmHistoryInvariant.StepTruthfulIff | docs/db-description/bower/codemirror/codemirror.js:4767-5272 | from any truthful state every step is possible; it keeps every entry of both stacks applicable and leading to the text of its generation, and gives the generation it arrives at one text, if and only if the step is sound |
| CmHistoryRuns.SameGenerationSameText | docs/db-description/bower/codemirror/codemirror.js:6180-6190 | a sound run never meets an entry that does not fit, and any two states it reaches with the same generation have the same text |
| CmHistoryRuns.IsCleanIsSound | docs/db-description/bower/codemirror/codemirror.js:6180-6190 | when isClean answers true at the end of a sound run, the text is the text at the last markClean, or the first text when there was none |
| CmHistoryRuns.LedgerWasReached | docs/db-description/bower/codemirror/codemirror.js:6180-6190 | every generation on record was reached by a part of the run, with the text on record |
| CmHistoryRuns.UndoRestoresEventStart | docs/db-description/bower/codemirror/codemirror.js:5203-5272 | after every sound run with something to undo, undo gives the generation the top event was started from, and a text that the run had at that generation |
| CmHistoryRuns.UndoAfterEdit | docs/db-description/bower/codemirror/codemirror.js:4767-4808 | undo after an edit gives the text before it, or before the event it was merged into; it is possible if and only if the edit was merged or undoDepth is at least 2 |
| CmHistoryRuns.UndosThenRedosInRun | docs/db-description/bower/codemirror/codemirror.js:5203-5272 | in every sound run, n undos followed by n redos give back text, generation and both stacks of change events |
| CmHistoryReach.UndosGoBack | docs/db-description/bower/codemirror/codemirror.js:5203-5272 | from any truthful state, undos go back one by one through the texts of all the change events on the stack, and do nothing after that |
| CmHistoryReach.EditsCanBeUndone | docs/db-description/bower/codemirror/codemirror.js:4792-4799 | after any edits of a new document, undos lead back one by one to the texts from which the last events started, to exactly half of undoDepth of them or to all if there are fewer |
| CmHistoryReach.EditsAfterClear | docs/db-description/bower/codemirror/codemirror.js:6178 | after clearHistory they lead back to all of them, since the new history has no undoDepth, and not past the restart |
| CmHistoryLaws.NextEditJoinsIff | docs/db-description/bower/codemirror/codemirror.js:4774-4777 | an edit joins the event of the edit before it if and only if that was kept and both have one operation number, or one origin that begins with * or, in an editor and less than historyEventDelay later, with + |
| CmHistoryLaws.SelectionSplitsIff | docs/db-description/bower/codemirror/codemirror.js:4752-4777 | with a selection between two such edits they still share an event if and only if they are of one operation or the selection took the place of the one on top |
| CmHistoryLaws.MarkAndClearSplit | docs/db-description/bower/codemirror/codemirror.js:6178-6187 | after markClean or clearHistory no edit joins an event |
| CmHistoryLaws.UndoAndRedoSplit | docs/db-description/bower/codemirror/codemirror.js:5217-5220 | after an undo or redo an edit joins an event if and only if there is one and it has the operation number of the last edit |
| CmHistoryLaws.JoiningLeavesRest | docs/db-description/bower/codemirror/codemirror.js:4774-4788 | an edit that joins an event changes only that event, and takes the selections off it |
| CmHistoryLaws.StartingLeavesRest | docs/db-description/bower/codemirror/codemirror.js:4789-4799 | an edit that starts an event leaves the stack below it as it was, as long as undoDepth has room |
| CmHistoryLaws.InsertionLengthensEntry | docs/db-description/bower/codemirror/codemirror.js:4778-4787 | an insertion where the last change of its event ended lengthens that entry, any other change adds one |
| CmHistoryLaws.SelectionAfterEdit | docs/db-description/bower/codemirror/codemirror.js:4830-4836 | a selection takes the place of the one an edit left if and only if it has the operation number or the origin of the edit; otherwise it goes on top unless it is the same |
| CmHistoryLaws.SelectionAfterSelection | docs/db-description/bower/codemirror/codemirror.js:4810-4836 | a selection takes the place of the one before it if and only if both have one operation number, or one origin that is that of an edit at the same time, begins with *, or begins with + and the two are alike and close in time |
| CmHistoryLaws.SelectionAfterUndo | docs/db-description/bower/codemirror/codemirror.js:4830-4836 | after an undo or redo only the operation number counts |
| CmHistoryLaws.SelectionAfterMark | docs/db-description/bower/codemirror/codemirror.js:6183-6187 | after markClean only the origin counts, and no edit with it |
| CmHistoryLaws.SelectionLeavesRest | docs/db-description/bower/codemirror/codemirror.js:4838-4842 | apart from that, a selection takes exactly the selections off the top of what can be redone, if clearRedo is on, and changes neither text nor generation |
| CmHistoryLaws.EditIsSplice | docs/db-description/bower/codemirror/codemirror.js:5185-5200 | the text after an edit is the splice at the two clipped positions in order; an edit that changes nothing leaves the whole state alone |
| CmHistoryLaws.CleanWhen | docs/db-description/bower/codemirror/codemirror.js:6180-6190 | a document is clean when new and when marked, and after no edit of a sound run |
| CmHistoryLaws.PoppedGoOver | docs/db-description/bower/codemirror/codemirror.js:5222-5233 | undo and redo move exactly the selections above the top change event to the other stack, and the lowest of them becomes the current one |
| CmHistoryLaws.SelectionsComeBack | docs/db-description/bower/codemirror/codemirror.js:5203-5272 | after any sound run, undoing an edit that started an event gives the selection, text and generation from before the edit, and redoing it those from after it |
| CmHistoryFlaws.ClobberedUndoIsWrong | docs/db-description/bower/codemirror/codemirror.js:4830-4834 | counterexample for any texts a and b: select, redo and select in one operation lose an event, and the next undo gives a text the document never had at the generation of the empty, clean one |
| CmHistoryInvariant.SelectIsTruthfulIff | docs/db-description/bower/codemirror/codemirror.js:4830-4834 | a selection keeps the promise of undo and redo if and only if it overwrites no change event, or the next one below fits the present text and leads to the text of its generation |
| CmHistoryFlaws.SelectKeepsEntriesIff | docs/db-description/bower/codemirror/codemirror.js:4830-4834 | a selection leaves the lists of change events as they are if and only if it does not overwrite one |
| CmHistoryFlaws.RelabeledIsClean | docs/db-description/bower/codemirror/codemirror.js:6178 | counterexample for any text a: markClean, undo, clearHistory make isClean true for another text |
| CmHistoryInvariant.ClearIsTruthfulIff | docs/db-description/bower/codemirror/codemirror.js:6178 | clearHistory keeps one text per generation if and only if no newer generation exists or the newest has the current text |
| CmHistoryFlaws.ClearAfterRunIff | docs/db-description/bower/codemirror/codemirror.js:6178 | after every sound run, clearHistory keeps one text per generation if and only if the current generation is the newest or the run had the current text at the newest |
| CmHistoryDocument.Document.ReplaceRange | docs/db-description/bower/codemirror/codemirror.js:6051-6055 | clips, orders and makes the change: one Edit step of the state machine |
| CmHistoryDocument.Document.MakeChangeInner | docs/db-description/bower/codemirror/codemirror.js:5185-5200 | an empty change of nothing is ignored; any other is recorded and applied |
| CmHistoryDocument.Document.RecordChange | docs/db-description/bower/codemirror/codemirror.js:4767-4799 | the change joins the event on top or starts one, as the state machine says |
| CmHistoryDocument.Document.AddChangeToHistory | docs/db-description/bower/codemirror/codemirror.js:4767-4808 | merging, starting an event, dropping the oldest ones and the bookkeeping leave the history of the state machine; NextEditJoinsIff, TrimKeepsMost and EditsCanBeUndone say what that keeps |
| CmHistoryDocument.Document.JoinEvent | docs/db-description/bower/codemirror/codemirror.js:4777-4787 | the last entry is stretched or a new one added, as `Extend` says |
| CmHistoryDocument.Document.StartNewEvent | docs/db-description/bower/codemirror/codemirror.js:4788-4799 | a new event above a selection, then at most undoDepth entries |
| CmHistoryDocument.Document.SetSelection | docs/db-description/bower/codemirror/codemirror.js:4823-4843 | one Select step of the state machine |
| CmHistoryDocument.Document.Undo | docs/db-description/bower/codemirror/codemirror.js:5203-5272 | one Undo step of the state machine |
| CmHistoryDocument.Document.Redo | docs/db-description/bower/codemirror/codemirror.js:5203-5272 | one Redo step of the state machine |
| CmHistoryDocument.Document.MakeChangeFromHistory | docs/db-description/bower/codemirror/codemirror.js:5203-5272 | looks for a change event, moves the selections above it over, and applies its entries backwards |
| CmHistoryDocument.Document.ApplyEntry | docs/db-description/bower/codemirror/codemirror.js:5292-5321 | one entry is recorded for the other stack and applied, cut to the size of the document when it reaches past its end |
| CmHistoryDocument.Document.MarkAsClean | docs/db-description/bower/codemirror/codemirror.js:6180-6187 | one Mark step: the generation is remembered and the next change starts an event |
| CmHistoryDocument.Document.RestartHistory | docs/db-description/bower/codemirror/codemirror.js:6178 | one Clear step: both stacks are empty, undoDepth is unlimited, and the newest generation is the current one |
| CmLineShape.FirstBelowIsLeast | docs/db-description/bower/codemirror/codemirror.js:453-471 | the linear search that lineAtHeight is compared with: the least line at which the prefix sum of the heights exceeds h |
| CmLineShape.SkipBlock | docs/db-description/bower/codemirror/codemirror.js:456-462 | a block of lines that ends at or above h can be skipped as a whole |
| CmLineShape.EnterBlock | docs/db-description/bower/codemirror/codemirror.js:456-462 | a block of lines that ends below h holds the answer |
| CmLineEdits.NewLeaf | docs/db-description/bower/codemirror/codemirror.js:5467-5478 | a leaf becomes the parent of its lines and caches their height |
| CmLineEdits.NewBranch | docs/db-description/bower/codemirror/codemirror.js:5520-5533 | a branch becomes the parent of its children and caches the sums of their sizes and heights; nothing below them changes |
| CmLineEdits.InsertIntoLeaf | docs/db-description/bower/codemirror/codemirror.js:5503-5509 | the lines are spliced into the leaf, which becomes their parent |
| CmLineEdits.SplitLeaf | docs/db-description/bower/codemirror/codemirror.js:5579-5590 | a leaf over 50 lines keeps 25 to 49 of them; the others go to new leaves of 25, in order, with the same parent |
| CmLineEdits.MaybeSpill | docs/db-description/bower/codemirror/codemirror.js:5599-5619 | at most ten children are left alone; otherwise groups of five move to new siblings with the same parent, in order, and at most ten stay |
| CmLineEdits.MaybeSpillTop | docs/db-description/bower/codemirror/codemirror.js:5604-5618 | the top is pushed down until it has at most ten children; it keeps its lines and everything below stays linked |
| CmLineEdits.InsertInner | docs/db-description/bower/codemirror/codemirror.js:5570-5597 | the lines are spliced into those below the branch; every link, parent and cache is right again and all nodes below are within bounds |
| CmLineEdits.RemoveFromLeaf | docs/db-description/bower/codemirror/codemirror.js:5484-5494 | the lines are cut out of the leaf and lose their parent |
| CmLineEdits.ShrinkAt | docs/db-description/bower/codemirror/codemirror.js:5542-5551 | one step of the loop: a child shrinks, is dropped when all its lines go, and the lines still to go are counted down |
| CmLineEdits.RemoveInner | docs/db-description/bower/codemirror/codemirror.js:5538-5562 | exactly n lines from position at are cut out; they lose their parents, everything else is linked and cached rightly, bounds hold, and fewer than 25 lines are left in a single leaf |
| CmLineEdits.Collapse | docs/db-description/bower/codemirror/codemirror.js:5564-5568 | all lines below a node are appended, in order |
| CmLineEdits.CollapseIfSmall | docs/db-description/bower/codemirror/codemirror.js:5553-5561 | a branch under 25 lines becomes the parent of one leaf with the same lines |
| CmLineEdits.IterN | docs/db-description/bower/codemirror/codemirror.js:5621-5633 | visits exactly the n lines from position at, in order |
| CmLineEdits.CachesAreSums | docs/db-description/bower/codemirror/codemirror.js:5520-5533 | every branch caches the sums of what its children cache |
| CmLineTree.LineTree.constructor | docs/db-description/bower/codemirror/codemirror.js:5997 | a document starts as a branch with one leaf with one line |
| CmLineTree.LineTree.Insert | docs/db-description/bower/codemirror/codemirror.js:6029-6033 | the document is the flat list with the lines inserted, in a well-formed tree within bounds |
| CmLineTree.LineTree.Remove | docs/db-description/bower/codemirror/codemirror.js:6034 | the document is the flat list without the lines, in a well-formed tree within bounds; the removed lines have no parent |
| CmLineTree.LineTree.Iter | docs/db-description/bower/codemirror/codemirror.js:6023-6026 | doc.iter over a range visits the lines of that range |
| CmLineTree.LineTree.GetLine | docs/db-description/bower/codemirror/codemirror.js:396-408 | the line with this number, and none outside the document |
| CmLineTree.LineTree.LineNo | docs/db-description/bower/codemirror/codemirror.js:439-449 | the number of a line, found through its parents: the one number for which getLine returns it; none for a line without a parent |
| CmLineTree.LineTree.LineAtHeight | docs/db-description/bower/codemirror/codemirror.js:453-471 | the answer of the linear search over all lines |
| CmLineTree.LineTree.UpdateLineHeight | docs/db-description/bower/codemirror/codemirror.js:432-435 | the line has the new height, all caches are exact again, links and other lines are untouched |
| CmLineTree.Reweighed | docs/db-description/bower/codemirror/codemirror.js:432-435 | raising one line and every node above it by the same amount makes all caches exact again |
| CmLineTree.NextOnChain | docs/db-description/bower/codemirror/codemirror.js:434 | on the way up every node is met once |
| CmLineTree.SizeBefore | docs/db-description/bower/codemirror/codemirror.js:443-446 | the inner loop adds up the sizes of the children before the one it came from |
| CmSelection.NormalizeSelection | docs/db-description/bower/codemirror/codemirror.js:4520-4534 | sorting and the splicing loop compute the specification `Normalized` |
| CmSelection.SortIsOrdered | docs/db-description/bower/codemirror/codemirror.js:4522 | the sorted list is a permutation in the order of the starts |
| CmSelection.MergeIsSound | docs/db-description/bower/codemirror/codemirror.js:4524-4532 | the loop invariant: what is done is in order and apart, the positions covered are the same, the index names a range around the primary one |
| CmSelection.NormalizedIsSound | docs/db-description/bower/codemirror/codemirror.js:4520-4534 | the ranges are in order, do not touch, cover exactly the positions given, and the primary index names a range that contains the primary range |
| CmSelection.NormalizedKeepsDirection | docs/db-description/bower/codemirror/codemirror.js:4527-4530 | a range of the result that is not empty points the way of the first range in it that is not empty |
| CmSelection.NormalizedStays | docs/db-description/bower/codemirror/codemirror.js:4520-4534 | ranges in order that do not touch stay as they are, with their primary index |
| CmSelection.NormalizingIsIdempotent | docs/db-description/bower/codemirror/codemirror.js:4520-4534 | normalizing again changes nothing |
| CmSelection.SpansAreDetermined | docs/db-description/bower/codemirror/codemirror.js:4524-4532 | separate ranges are determined, up to direction, by the positions they cover and cross |
| CmSelection.AnyArrangementNormalizes | docs/db-description/bower/codemirror/codemirror.js:4520-4523 | however ties are sorted and whichever of equal ranges is the primary one, spans and primary index are the same; with the stable order, directions too |
| CmColumns.CountColumn | docs/db-description/bower/codemirror/codemirror.js:161-174 | the column reached at the end when counting on from any position and column, one per character backwards before it; without an end, up to the first character that is not a space |
| CmColumns.TabStops | docs/db-description/bower/codemirror/codemirror.js:161-174 | a tab goes on to the next multiple of the tab size and any other character takes one column |
| CmColumns.SpacesAre | docs/db-description/bower/codemirror/codemirror.js:163 | the characters of indentation are the white space of regular expressions and the non-breaking space |
| CmColumns.AdvanceInTwo | docs/db-description/bower/codemirror/codemirror.js:1539-1545 | counting on from a remembered position and column is counting from further back |
| CmColumns.FindColumn | docs/db-description/bower/codemirror/codemirror.js:202-214 | the least position whose column reaches the goal, or the end of the line; a negative goal is returned as it is |
| CmColumns.ColumnsIncrease | docs/db-description/bower/codemirror/codemirror.js:161-174 | every character moves the column by at least one |
| CmColumns.FindInvertsCount | docs/db-description/bower/codemirror/codemirror.js:202-214 | the position found for the column of a position is that position |
| CmColumns.OvershootIsInsideTab | docs/db-description/bower/codemirror/codemirror.js:202-214 | the column found differs from the goal if and only if the goal lies inside the tab just before it |
| CmColumns.StringStream.TokenColumn | docs/db-description/bower/codemirror/codemirror.js:1539-1545 | the remembered count is carried on, and the answer is the column of the token if and only if the token does not start before the remembered position |
| DifferSelection.IssueNotInReport | differ/comparator.go:144-167 | an issue is new when no old item has its type, module and key |
| DifferSelection.AskShouldNotify | differ/comparator.go:88-97 | a cluster without a previous record is always notified, any other only of issues not in the record |
| DifferSelection.FilterDisabledRulesFromReport | differ/differ.go:409-482 | the loop keeps the items that are not disabled, in order, and leaves a report alone when nothing is disabled |
| DifferSelection.RemovalIsHarmless | differ/differ.go:409-482 | removing disabled hits is idempotent, keeps the other fields and exactly the enabled hits, and never changes what is selected |
| DifferSelection.StoredReportLacksDisabled | differ/differ.go:367-392 | no issue equal to a disabled one is left, because type is no part of the disabling |
| DifferSelection.GetReportsWithIssuesToNotify | differ/differ.go:494-550 | the selection loop returns the selected items, in order, with their evaluated risk |
| DifferSelection.BuildEvents | differ/differ.go:659-711 | the Kafka loop builds one event per selected item, in order |
| DifferSelection.EventsFollowSelection | differ/differ.go:494-711 | the two copies of the selection loop agree: one event and one hit to render per selected hit, in order, with its module, key, description, risk and date |
| DifferLaws.SelectedExactly | differ/differ.go:494-550 | a hit is selected if and only if it is in the report, not disabled, passes the filters, and no hit of its cluster's previous record has its type, module and key |
| DifferLaws.DisabledExactly | differ/differ.go:367-392 | a hit is disabled if and only if a cluster row has its module as it is, or an organization row has it less one ".report", with its key and the number of the organization as text |
| DifferLaws.DecimalIsNumeral | differ/differ.go:368 | that text is the one decimal numeral of the number without superfluous zeros |
| DifferTables.FilterClusterList | differ/cluster_filter.go:44-109 | the loop keeps, in order, the allowed entries or those not blocked, where the allow list wins, and its counters add up |
| DifferTables.ReadClusterListIsLatest | differ/storage.go:394-436 | of any table, the query lists every cluster once, sorted, with its latest report |
| DifferTables.RunListIsDistinct | differ/cluster_filter.go:44-109 | the list a run works on, read from any table and filtered, has one entry per cluster: those of the query that the filter lets through |
| DifferTables.ReadLastNotifiedRecordForClusterList | differ/storage.go:647-720 | the loop over the result rows gives, per cluster and organization, the latest sent record inside the cool-down, and none otherwise |
| DifferLaws.PreviousExactly | differ/storage.go:667-717 | a run compares a listed cluster with a record if and only if that is the last one notified of the target's records in state 1 of listed organizations, is of the cluster's organization, and is less than the cool-down old |
| DifferRun.Storage.WriteNotificationRecord | differ/storage.go:560-574 | one row is added, unless the write fails |
| DifferRun.Storage.AskReadError | differ/storage.go:577-613 | whether the table has a row for the report; no when it does not answer |
| DifferRun.Storage.WriteReadError | differ/storage.go:617-643 | one row is added, unless the write fails |
| DifferRun.Differ.ProduceEntriesToKafka | differ/differ.go:643-744 | the record written, the message accepted, and the count: -1 with an error, 0 for offset -1 or nothing selected, and otherwise one per selected hit |
| DifferLaws.KafkaLeaves | differ/differ.go:713-743 | from the answer alone: delivered at any offset but -1 leaves one sent row and one message with exactly the selected hits; undelivered leaves one error row; offset -1 and a message that is not encoded leave nothing; no selected hit leaves one same row |
| DifferRun.Differ.ProduceEntriesToServiceLog | differ/differ.go:597-641 | the number of accepted posts, or the failure that stops the loop |
| DifferLaws.AcceptedPost | differ/differ.go:617-637 | a selected hit is accepted if and only if it has a rendered text and its post is accepted, the number of which is how many hits with a text come before it |
| DifferLaws.ServiceLogLeaves | differ/differ.go:835-850 | from the rendering and the posts alone: one error row, or one sent row and one message with the accepted hits, or one same row when none is |
| DifferRun.Differ.NotifyCluster | differ/differ.go:835-863 | the report without disabled hits is what is sent from and stored |
| DifferRun.Differ.ProcessOne | differ/differ.go:776-865 | one cluster is skipped, empty, a known or new read error, or processed, and the hits it counts as notified are those accepted |
| DifferLaws.ReadingDecides | differ/differ.go:786-833 | from the reading alone: only a readable report with hits is notified, and a failed reading is stored unless the table says it is known or takes no row |
| DifferRun.Differ.ProcessReportsByCluster | differ/differ.go:764-869 | the loop over the clusters gives the state of the specification and counts each kind; the hits counted as notified are those of the messages accepted in the loop |
| DifferLaws.CountersFollowReadings | differ/differ.go:764-869 | the counters from the readings alone: processed are the reports with hits, empty those without, and every failed reading is known or leaves a row |
| DifferRun.Differ.Start | differ/differ.go:1132-1233 | one run of the specification: the disabled rules are replaced, the clusters read and filtered, and the previous records read once, before the loop |
| DifferRuns.SnapshotEqualsRereading | differ/differ.go:1057-1070 | for every table, reading the previous records once decides as reading them again before every cluster |
| DifferRuns.StepAddsOwnRows | differ/differ.go:776-865 | processing a cluster only adds rows of that cluster |
| DifferRuns.OutcomeIsSound | differ/differ.go:713-743 | a sent record is due exactly when something was accepted, and only selected hits are |
| DifferRuns.AcceptedIsStored | differ/differ.go:713-743 | an accepted hit is in the record stored with it |
| DifferRuns.RunsAreConsistent | differ/differ.go:764-869 | over all regular runs, each with its own rule content: notification times do not go back, everything accepted is in a sent record, repeats have a record between that lacks the issue |
| DifferRuns.RepeatedOnlyAfterForgetting | differ/comparator.go:88-97 | one issue of a cluster in two accepted messages less than a cool-down apart means a sent record after the first and before the second lacks it |
| DifferRuns.StepKeepsErrorsIff | differ/differ.go:798-818 | one cluster keeps read errors unique if and only if none is stored again because the table did not answer |
| DifferRuns.ReadErrorsOnce | differ/storage.go:577-643 | over all runs, read_errors holds at most one row per organization, cluster and time of update if and only if none was stored without an answer |
| DifferFindings.SelectedWithinCooldownIff | differ/comparator.go:88-97 | inside the cool-down, an enabled hit that passes the filters is notified if and only if the latest sent record lacks it |
| DifferFindings.RepeatedWithinCooldown | differ/differ.go:1057-1070 | counterexample for any two issues: the same issue is notified twice inside one cool-down, against docs/configuration.md:87 |
| DifferFindings.ReadErrorStoredTwice | differ/differ.go:746-750 | counterexample for any configuration and cluster: the table, whose unique key holds the number of the error, takes a second row for one report |
| DifferFindings.ComparesWithSentIff | differ/storage.go:667-717 | after every sequence of runs the query finds the latest sent records in cool-down, if and only if the sent state has the number 1 it asks for |
| DifferFindings.FindsUnsentIff | differ/storage.go:667-717 | when the sent state has another number, the query ever finds a record if and only if the same or the error state has number 1 |
| DifferFindings.UnsentIsBaseline | differ/comparator.go:88-97 | then a hit that was filtered out, or whose message failed, is held back as if it had been sent |
| DifferFindings.NoDisabledHitIsStored | differ/differ.go:841-847 | no record written in a run, whatever the table of reports, holds a hit disabled in that run for its cluster |
| DifferFindings.ReenabledHitIsNotified | differ/differ.go:841-847 | a hit missing from the latest sent record because it was disabled is selected if and only if it is present, enabled and passes the filters |
| DifferFindings.RefusedPostIsNotRetried | differ/differ.go:597-641 | one accepted post stores all hits as sent, so a refused one is not selected while that record is the latest |
| DifferFindings.RunConserves | differ/differ.go:764-869 | clusters = skipped + empty + known read errors + processed; every processed cluster writes exactly one record, except when hits are selected and the answer is offset -1 or the message is not encoded |
| ServiceLogProducer.Producer.New | producer/servicelog/service_log_producer.go:52-65 | the first token is asked for, the delays start at 1 second and stop at 30; without a token the producer comes with the error |
| ServiceLogProducer.Producer.RefreshToken | producer/servicelog/service_log_producer.go:124-133 | one request for a token; the token changes only when one is returned |
| ServiceLogProducer.Producer.RefreshWithRetries | producer/servicelog/service_log_producer.go:93-108 | the refresh loop ends: with the first token returned, or after all requests that the delay allows; the delay doubles after each retry |
| ServiceLogProducer.Producer.ProduceMessage | producer/servicelog/service_log_producer.go:68-117 | the posts, requests and pauses of a call follow the protocol and are those this world makes of it, its result is whether the last post got a 201, and the delay is reset by every token |
| ServiceLogProducer.CallsEndIff | producer/servicelog/service_log_producer.go:92-110 | a call has an end if and only if, after finitely many rejected posts, one is not rejected or no token comes in time |
| ServiceLogProducer.AskingIs | producer/servicelog/service_log_producer.go:93-108 | n requests are n asks of which only the last is answered, with n - 1 sleeps between them, each twice as long as the one before |
| ServiceLogProducer.AttemptsReachThreshold | producer/servicelog/service_log_producer.go:96-99 | the last request allowed is the first at which the delay has reached the threshold |
| ServiceLogProducer.DelayMeans | producer/servicelog/service_log_producer.go:92-110 | a call leaves the delay alone if its first post decides, resets it if a later one does, and leaves it at the threshold or above if it gives up |
| ServiceLogProducer.AskingCosts | producer/servicelog/service_log_producer.go:94-108 | the time slept is the growth of the delay, which stays below twice the threshold when it starts below it |
| ServiceLogProducer.RejectedPostCosts | producer/servicelog/service_log_producer.go:52-65 | with the defaults a rejected post costs at most 6 requests for a token and 31 seconds of sleep, exactly these when all are refused, and one request without sleep after an earlier failure |
| ServiceLogProducer.AfterGivingUp | producer/servicelog/service_log_producer.go:96-99 | after a failed refresh the delay stays at the threshold, and the next rejection gets a single request and no sleep |
| ServiceLogProducer.SuccessMeans | producer/servicelog/service_log_producer.go:92-111 | a call succeeds if and only if its last step is a post answered 201; all earlier posts got 401, and every later post follows a request and carries the token it returned |

## Left out

Of the event-filter language:

- Lexing by `go/scanner` and `strconv.Atoi`: the models start from tokens, and an integer token already holds its value.
- `int` is taken as 64 bits wide, as on the service's platforms.
- The evaluator library that the service itself calls (`differ/differ.go:288`) is not part of this model.

Of the editor:

- DOM, rendering, input, key maps, bidirectional text, highlighting, marked spans, linked documents and history rebasing.
- `doc.first` is 0 in the text and history models; the line tree keeps it.
- CmLineEdits.MaybeSpill: the new siblings are returned to the caller, which puts them after the node in its list of children, so the walk up the parents is the return from the recursion.
- CmLineEdits.MaybeSpillTop: the children move to the new branch first and the spilling of that branch comes second; in the source the first five are split off before the move. The result is the same.
- CmLineTree.LineTree.Insert: inserted lines are new objects without a parent, as all callers in the source pass them.
- Leaves and branches are one class of nodes with a flag.
- Heights are exact real numbers; the rounding of JavaScript numbers is not modelled.
- CmHistoryDocument.Document.Undo: `allowSelectionOnly` (undoSelection, redoSelection), `suppressEdits` and the `beforeChange` filter are left out; the selection after a change is an input of each step. An entry that starts beyond the last line, which the source skips and then keeps without a text, is not modelled; no sound run meets one (StepTruthfulIff).
- CmHistoryDocument.Document.Redo: the same.
- CmHistoryDocument.Document.MakeChangeFromHistory: the same.
- Line heights are estimated from the first text on; the source starts with height 1 and estimates when an editor takes the document.
- The undoDepth is the one the editor sets when it takes the document; changing the option later is left out.
- The history is a record-valued field of the document class instead of an object of its own.
- The `sticky` flag takes no part in the equality of positions.
- CmSelection.NormalizeSelection: ranges are values; the position of the primary one is looked up by value, which AnyArrangementNormalizes shows to make no difference.

Of the notification protocol:

- JSON text, SQL, Kafka, HTTP and the template renderer: reports are fields plus items, tables are lists of rows, and remote answers are inputs of each run.
- Reading rule content, evaluating the filter expression and comparing tags are one given function of a module and key, a new one in every run.
- Of two sent records with the same time of notification the newer row is taken, and of two reports of one cluster with the same time the older row; the database sorts cluster names as the models do.
- The report that a run reads for a cluster is an input, not looked up in the table of reports; rows of `read_errors` that go with their reports are not removed.
- Metrics, logging, configuration, exit codes and the clean-up commands.
- Two runs at the same time on the same tables.

Of the Service Log producer:

- ServiceLogProducer.Producer.ProduceMessage: a server that rejects every post while tokens keep coming makes the source recurse for ever; CallsEndIff says that the method leaves out nothing else.
- The timeout handed to the token request, and errors while the request is being built.
