# SciTECO: a model of the interpreter and its data structures

SciTECO executes a macro character by character, without a syntax tree, and every effect of every
character of the command line can be rubbed out again. This project models the parts of it where
that is hard, and proves that they agree with simple specifications.

- **Expressions** (`ExpressionSpec`, `ExpressionGrammar`, `ArithmeticLaws`, `ExpressionStack`,
  `ExpressionRuns`, `Frames`, `StackLaws`): the shift-reduce evaluator over a stack of numbers and a stack
  of operators. It computes what the infix grammar says, and every operation can be undone, also when it
  fails part-way.
- **Control flow** (`MacroMachine`, `StructuredMacros`, `BraceRemoval`, `MacroRefinement`,
  `MacroSimulation`, `MacroInterpreter`, `MacroExamples`, `MacroLaws`): loops, conditionals and breaks as a
  program counter, a loop stack, a skip mode and a nesting level. It agrees with a structured semantics of
  nested programs, and every character of it but one kind of break can be undone.
- **Goto** (`GotoSpec`, `GotoLaws`, `GotoInterpreter`): labels collected while parsing, forward searches and the
  way back after `:O`, against an interpreter with a complete table.
- **Command line** (`Undo`, `CommandLineSpec`, `CommandLine`, `EditingLaws`): a list of undo tokens per
  character, and insertion, rubout, rub-in, failed keys and replacement of the line. If all commands push the tokens
  for what they change, the editor always is in the state that a fresh replay of the effective line gives.
- **Line ends** (`EolSpec`, `EolReader`, `EolWriterSpec`, `EolWriter`): the reader that rewrites its
  buffer, the writer that resumes after short writes, and loading and saving.
- **Indexes** (`RedBlackSpec`, `RedBlackHeap`, `RedBlackRotate`, `RedBlackTree`, `RedBlackUnlink`,
  `RedBlackRemove`, `RedBlackNavigate`, `RedBlackIndex`, `KeyIndex`, `Strings`): the red-black tree with
  parent links and colours in the child links, relinked in place, and completion on top of it.
- **Buffer ring** (`TailQueue`, `Ring`): closed buffers that re-link themselves when undone.
- **Smaller algorithms**: `NumberFormat` (printing and reading numbers), `Search` (counted searches),
  `StringBuilding` (string arguments and escaping), `WordMotion` (moving by words across the gap).

`Rewinding` holds what all logs of undo tokens have in common; `Words`, `Ascii`, `Sequences` and `Options`
are shared basics.

Each in-place method is tied by its contract to a function on values, and the properties are lemmas
about those functions. Where a method and its specification rest on the same elementary definition (an
operator, a comparison, a condition, the choice of a label), laws pin that definition from outside: they
say what comes out without naming it (`ArithmeticLaws`, `StackLaws`, `MacroLaws`, `GotoLaws`,
`EditingLaws`, `Strings.LessExact`). Words are 64-bit integers; where the source overflows, the model wraps
as two's complement does.

The code and its documentation disagree in two places, and the model follows the code. The manual of the
replacement command says that the original command line is restored when the new one fails
(src/core-commands.c:524-535); `CommandLineSpec.RecoveryExact` says how much of it really is. The comment
on the writer says that it can be called repeatedly for a larger document whatever its line ends
(src/eol.c:360-362); `EolWriterSpec.WriterExact` says when that holds after short writes.

Two more properties hold only under a condition on the frames, the stacks above each open brace
(`BraceRemoval`). First, the removal of braces. A closing bracket, and the end of the last iteration of a
loop, fails exactly if its frame cannot be resolved and no operator waits for its right operand on top of
it. A break that is taken fails exactly if the frames opened since its loop began, its condition taken off,
block: going outwards, one is met that cannot be resolved, or that holds an operator below separators,
before an operator that waits on top ends the resolving. What does not fail removes its braces exactly if
no operator waits on top of one of these frames. Second, a character can be rubbed out exactly if it is not a break that is taken
while the frames block, as in `<1/0(;`: such a break loses its loop (`MacroSimulation.LosesExact`,
`MacroInterpreter.Interpreter.InputThenRubout`). And a minus negates the number typed behind it exactly if
the number does not begin with the digit 0, or is 0: after `-05` the value is 5 (`StackLaws.MinusExact`).

## Model

| member | source | states |
|---|---|---|
| ExpressionGrammar.SentenceEvaluates | src/expressions.c:161-178 | typing any infix sentence over literals, the nine binary operators and parentheses, and resolving it, leaves the earlier stacks plus one number, the value of its grammatical tree, or stops with the error of the first undefined subterm; `ArithmeticLaws.ValueMeans` says what that value is |
| ExpressionGrammar.FeedComputes | src/expressions.c:200-316 | the same for every grammatical tree above any pending operator of lower precedence, by induction on the tree |
| ExpressionGrammar.TreeSpellsSentence | src/expressions.h:75-95 | the tree used as reference obeys precedence (enumeration value / 16) and left association, and its leaves spell the sentence |
| ExpressionGrammar.AttachKeeps | src/expressions.h:67-95 | extending a sentence by one operator and operand keeps the tree grammatical and spells the longer sentence |
| ExpressionGrammar.EvalIsReduce | src/expressions.c:294-316 | resolving everything is reducing down to precedence 1, and both stop at the same place |
| ExpressionStack.PowerBySquaring | src/expressions.c:200-290 | the squaring loop computes the power modulo 2^64 for every positive exponent |
| ExpressionStack.PowerSquare | src/expressions.c:200-290 | squaring the base and halving an even exponent does not change the power |
| ExpressionStack.Expressions.Operate | src/expressions.c:214-286 | the operation on two words is lawful: difference and sum undo each other, quotient and remainder make up the dividend, bitwise operators act on every bit, a power is congruent to the product of its factors |
| ArithmeticLaws.ArithLawful | src/expressions.c:214-286 | every operation on words obeys the laws of its operator, which are stated without computing it |
| ArithmeticLaws.LawfulUnique | src/expressions.c:214-286 | the laws leave no choice: at most one result, or one error, is lawful |
| ArithmeticLaws.ValueMeans | src/expressions.c:200-292 | a grammatical tree means exactly its value, where the meaning is given by the laws from the leaves up, and the first error from left to right |
| ArithmeticLaws.SentenceMeans | src/expressions.c:161-316 | typing a sentence and resolving it leaves the one value, or stops with the one error, that the sentence means |
| ArithmeticLaws.PrecedenceOrder | src/expressions.h:75-95 | the order of precedence: `#`, then `^#`, then `&`, then `-` and `+`, then `^/`, `/` and `*`, then `^*` |
| ArithmeticLaws.RanksCover | src/expressions.h:75-95 | these nine are all the binary operators |
| ArithmeticLaws.ThreeOperands | src/expressions.h:75-95 | of two operators in a sentence the first is applied first, unless the second has higher precedence |
| StackLaws.MinusExact | src/expressions.c:137-152 | a minus before a number typed in digits negates it exactly if the number does not begin with the digit 0, or is 0 |
| StackLaws.TypedIsEntered | src/expressions.c:137-152 | digits typed one after the other, in any radix, leave one number more, the numeral they spell |
| StackLaws.ArgumentTaken | src/expressions.c:123-135 | a command takes the value of the sentence before it and leaves the earlier stacks |
| StackLaws.ArgumentImplied | src/expressions.c:123-135 | without a value on top it takes the implied one and leaves the stacks alone |
| StackLaws.ArgumentsSeparate | src/core-commands.c:180-186 | a comma makes the sentences before and after it two values, in that order |
| StackLaws.OperatorTwice | src/expressions.c:161-178 | an operator directly behind one that does not have lower precedence is an error for the missing right operand; behind one that has, it is accepted |
| StackLaws.LeftMissing | src/expressions.c:200-222 | a value behind an operator without a value before it is an error for the missing left operand |
| StackLaws.NegatedParens | src/core-commands.c:160-172 | a minus before parentheses negates the value inside, or the error inside stays |
| StackLaws.ReturnKeepsOrder | src/expressions.c:377-398 | returning from braces leaves what the braces leave and on top the topmost numbers in the order in which they lay |
| StackLaws.TopNumsAre | src/expressions.c:382-395 | the numbers carried out of braces are the top segment of the number stack |
| ExpressionStack.Expressions.PushNumber | src/expressions.c:62-77 | pushes a number with its mark and takes the pending sign; the tokens undo it |
| ExpressionStack.Expressions.PopNumber | src/expressions.c:95-110 | takes the topmost number and its mark; the tokens undo it |
| ExpressionStack.Expressions.Calculate | src/expressions.c:200-292 | applies the topmost operator as the specification says, also when it fails part-way; the tokens undo it; what the operators give is pinned by `ArithmeticLaws` |
| ExpressionStack.Expressions.PushOperator | src/expressions.c:161-178 | reduces by precedence before pushing; the tokens undo it |
| ExpressionStack.Expressions.Evaluate | src/expressions.c:294-316 | resolves to the brace; the tokens undo it |
| ExpressionStack.Expressions.PopArgument | src/expressions.c:123-135 | pops a number or the implied one and clears the sign; the tokens undo it |
| ExpressionStack.Expressions.DiscardArguments | src/expressions.c:353-362 | drops all arguments above the brace; the tokens undo it |
| ExpressionStack.Expressions.OpenBrace | src/expressions.c:367-375 | opens a brace; the tokens undo it |
| ExpressionStack.Expressions.CloseBrace | src/expressions.c:400-410 | closes a brace, keeping its values; the tokens undo it |
| ExpressionStack.Expressions.ReturnFromBraces | src/expressions.c:377-398 | leaves braces and carries the returned numbers out, in the order that `StackLaws.ReturnKeepsOrder` states; the tokens undo it |
| ExpressionStack.Expressions.FirstOperator | src/expressions.c:337-351 | finds the topmost operator |
| ExpressionStack.Expressions.ArgumentCount | src/expressions.c:326-335 | counts the arguments above the topmost operator |
| ExpressionStack.Expressions.Rubout | src/expressions.c:62-110 | running the tokens last-in-first-out takes both stacks, the brace level and the sign back to where the token log was marked |
| ExpressionRuns.Perform | src/expressions.c:62-410 | one stack operation, whatever it is, has its specified effect and can be undone |
| ExpressionRuns.RunAll | src/expressions.c:62-410 | any run of operations, stopping at the first failure, has its specified effect and can be undone |
| ExpressionRuns.RunThenRubout | src/expressions.c:154-198 | rubbing out any run restores both stacks, the brace level, the sign and the log |
| ExpressionRuns.RunKeepsBalance | src/expressions.c:353-410 | over every run in which nothing fails, the NUMBER marks count exactly the numbers |
| ExpressionRuns.CalcBalanceExact | src/expressions.c:200-292 | a resolution step loses that balance exactly when two values lie directly on top of each other |
| ExpressionRuns.BalancedEffect | src/expressions.c:62-410 | every single operation that succeeds keeps the balance |
| Frames.EvalPlug | src/expressions.c:294-316 | resolving above a brace does not touch, or depend on, what is below it |
| Frames.PushCalcPlug | src/expressions.c:161-178 | pushing an operator above a brace does not reach below it |
| Frames.DiscardArgsPlug | src/expressions.c:353-362 | discarding arguments does not reach below the brace |
| Frames.PopNumCalcPlug | src/expressions.c:123-135 | popping an argument does not reach below the brace |
| Frames.ClosePlug | src/expressions.c:400-410 | closing a brace resolves the frame above it and joins the values to what is below, or stops with the error of resolving it; below an operator that waits on top it resolves nothing and the brace stays |
| MacroSimulation.MacroRefines | src/core-commands.c:323-479 | for every program nested from commands, `n<...>`, `(...)`, conditionals with and without else part, and `;`: if the structured run ends, the flat run of its text ends at the end of the text in that state, in normal mode, nesting 0, with loop stack and brace level as at entry; if it fails, the flat run fails with the same fault; if it stops where a brace is to be removed below a waiting operator, the flat run gets on with more braces than its brace level accounts for; if it needs more than the iterations granted, the flat run has not stopped after that many characters |
| MacroSimulation.MacroReflects | src/core-commands.c:323-479 | conversely, a flat run that ends or fails is the structured run ending or failing in the same way, unless the flat run has left a brace behind |
| MacroSimulation.Simulate | src/core-commands.c:778-850 | the induction: from any position, nesting and stack context, the flat machine takes a program to its exit in the number of steps returned |
| MacroSimulation.SimulateLoop | src/core-commands.c:323-418 | iterations of a loop body up to the counter, or to a break |
| MacroSimulation.SimulateCondElse | src/core-commands.c:1173-1283 | a conditional with an else part: from a true test the machine runs the first branch and skips the second, from a false one the other way round, and ends behind the closing quote |
| MacroSimulation.SimulateCond | src/core-commands.c:1173-1283 | a conditional without an else part: the branch is run or skipped, and the machine ends behind the closing quote |
| MacroSimulation.SimulateParen | src/core-commands.c:160-178 | a braced expression: the brace is opened, the body run above it, and its values are carried out by the closing brace |
| MacroRefinement.Skip | src/core-commands.c:778-850 | skipping the text of any program changes only the program counter: the nesting level and mode return |
| MacroSimulation.StepBreak | src/core-commands.c:440-479 | a break leaves the braces of its loop and starts skipping |
| MacroSimulation.StepLoopClose | src/core-commands.c:357-418 | a loop end repeats or leaves the loop |
| MacroSimulation.StepLoopOpen | src/core-commands.c:323-352 | a loop start opens a frame or starts skipping |
| MacroSimulation.StepCond | src/core-commands.c:1173-1283 | a conditional enters its branch or starts skipping |
| MacroSimulation.LoopEndRefused | src/core-commands.c:357-385 | a loop end outside of a loop of its macro, or below a brace that was opened in the loop, is an error, and so is a break outside of a loop |
| MacroSimulation.ParenCloseRefused | src/expressions.c:400-410 | a closing bracket without an open brace is an error |
| MacroLaws.ComparisonIs | src/core-commands.c:1227-1257 | a conditional takes the topmost value and runs its branch exactly if the value is positive for `G` and `>`, negative for `L`, `<`, `S` and `T`, not negative for `F` and `U`, zero for `E` and `=`, not zero for `N`, in either case of the letter |
| MacroLaws.ClassIs | src/core-commands.c:1204-1272 | the types that ask for a class of characters; `C` also holds for a dot, a dollar sign and an underscore |
| MacroLaws.OtherInvalid | src/core-commands.c:1273-1277 | every other type is an error |
| MacroLaws.ConditionRefused | src/core-commands.c:1181-1196 | a conditional fails if the stack cannot be resolved, or if it has no argument where it needs one |
| MacroLaws.DefaultIs | src/core-commands.c:1181-1203 | the type `~` runs its branch exactly if there is no argument, and takes none |
| MacroLaws.TypesAre | src/core-commands.c:1199-1277 | the types that are skipped over are exactly those that can be run |
| MacroLaws.SkippedIs | src/core-commands.c:1173-1186 | in skipped code nothing is tested; the nesting grows where conditionals are skipped |
| MacroLaws.BranchTaken | src/core-commands.c:1173-1283 | a structured program runs the branch that the machine goes to |
| MacroLaws.LoopRunsTimes | src/core-commands.c:323-418 | a loop with the argument n runs its command n times, not at all for 0, and for ever for a negative or missing argument |
| BraceRemoval.BreakExact | src/expressions.c:377-398 | leaving all braces opened since a loop began fails exactly if the frames above them block: going outwards, one is met that cannot be resolved, or that holds an operator below the separators left so far, before one with an operator waiting on top stops the resolving; otherwise the brace level becomes that of the loop, and all the braces are removed exactly if no operator is on top of any of the frames |
| BraceRemoval.RunBreakExact | src/core-commands.c:440-479 | how a break ends, by the frames opened since its loop began: it fails exactly if its condition cannot be popped, or is fulfilled and these frames block; it goes on exactly if the condition is not fulfilled; it leaves its loop, or leaves a brace behind, as no operator or some operator is on top of one of the frames |
| BraceRemoval.UnwindExact | src/expressions.c:377-398 | the recursion over the open braces behind both: whether it fails, removes all braces or leaves some is decided by the frames |
| BraceRemoval.DirectBreak | src/core-commands.c:440-479 | a break with no brace opened since its loop began cannot be blocked |
| MacroSimulation.LosesExact | src/core-commands.c:464-473 | a break loses its loop exactly if its condition can be popped and is fulfilled, and the frames opened since the loop began block |
| MacroSimulation.DirectKeepsLoop | src/core-commands.c:464-473 | directly in its loop, or outside of loops, a break never loses a loop |
| BraceRemoval.CloseExact | src/expressions.c:400-410 | a closing bracket that does not fail lowers the brace level; it removes the brace exactly if no operator is on top of the frame above it, and otherwise changes nothing else |
| BraceRemoval.LastIterationExact | src/core-commands.c:357-397 | the `>` that ends the last iteration of a loop fails exactly if no operator is on top of the frame of the loop and the frame cannot be resolved; otherwise it lowers the brace level, and removes the brace exactly if no operator is on top |
| BraceRemoval.DiscardArgsHangs | src/expressions.c:353-362 | discarding arguments does nothing if an operator is on top, and otherwise leaves no operator and no argument |
| BraceRemoval.UnwindLeaves | src/expressions.c:377-398 | what leaving the braces makes of the stacks: the error, the joined frame, or the braces that stay |
| MacroExamples.ClosingKeepsBrace | src/expressions.c:400-410 | the run of `(1+)` ends at brace level 0 with its brace still on the stack |
| MacroExamples.BreakKeepsBrace | src/expressions.c:377-398 | the run of `<1+;>` ends with no loop open, at brace level 0, with the brace of the loop still on the stack |
| MacroExamples.BreakLosesLoop | src/core-commands.c:464-473 | the break in `<1/0(;` fails with a division by zero after it has taken its loop off the loop stack without an undo token |
| MacroSimulation.NoBreakOutsideLoop | src/core-commands.c:440-448 | a break never leaves a macro that has no loop of its own open |
| MacroInterpreter.Interpreter.OpenLoop | src/core-commands.c:323-352 | the in-place loop start makes exactly the step of the flat machine, faults included, and emits the tokens that revert it, also when it fails part-way |
| MacroInterpreter.Interpreter.CloseLoop | src/core-commands.c:357-418 | the in-place loop end makes exactly the step of the flat machine, faults included, and emits the tokens that revert it, also when it fails part-way |
| MacroInterpreter.Interpreter.OpenParen | src/core-commands.c:160-172 | the in-place opening brace with its pending sign makes exactly the step of the flat machine, faults included, and emits the tokens that revert it, also when it fails part-way |
| MacroInterpreter.Interpreter.Condition | src/core-commands.c:1173-1283 | the in-place conditional, which `MacroLaws` states type by type, makes exactly the step of the flat machine, faults included, and emits the tokens that revert it, also when it fails part-way |
| MacroInterpreter.Interpreter.BreakLoop | src/core-commands.c:440-479 | the in-place break makes exactly the step of the flat machine, faults included; its tokens revert it exactly if it does not lose its loop, which `MacroSimulation.LosesExact` decides by the frames, and otherwise revert all but the loss of the loop |
| MacroInterpreter.Interpreter.Input | src/core-commands.c:778-850 | one character in any mode makes exactly the step of the flat machine, faults included; the tokens it emits revert it exactly if it is not a break that loses its loop |
| MacroInterpreter.Interpreter.InputThenRubout | src/undo.c:115-136 | a character that is executed and rubbed out again, whether or not it failed, leaves the stacks, the loop stack, mode, nesting and data as they were, except that the loop of a break that lost it is missing |
| MacroInterpreter.Interpreter.Rubout | src/undo.c:115-136 | running the tokens last-in-first-out takes the interpreter back to where its logs were marked |
| MacroInterpreter.Interpreter.MainStep | src/parser.c:102-159 | executing the text character by character is the run of the flat machine; the tokens revert the whole run if it does not end in such a break |
| Rewinding.UndoesTrans | src/undo.c:115-136 | what the tokens of two consecutive stretches revert, the tokens of both together revert |
| GotoSpec.LazyGotoAgrees | src/goto-commands.c:59-175 | the interpreter that collects labels while it parses, searches forward for unknown ones and goes back when a search fails has, for every macro with well-formed conditionals, exactly the outcomes of one that jumps by a complete table; for any other macro it may only fail earlier, at the malformed conditional |
| GotoSpec.TableConsistent | src/goto-commands.c:69-100 | after every token the table holds exactly the first definitions in the furthest-parsed prefix |
| GotoSpec.ResumeConsistent | src/parser.c:221-238 | going back at the end of the macro keeps that invariant, the table now being complete |
| GotoSpec.SearchFinds | src/goto-commands.c:158-166 | a search resumes right after the first definition of its label, having executed nothing |
| GotoSpec.SearchFails | src/parser.c:221-244 | a search for an undefined label ends in an error or, after `:O`, right behind the goto with nothing else changed |
| GotoSpec.DefsBounded | src/goto.c:167-182 | an entry of the table is the place after the first definition of its label |
| GotoSpec.NotDefined | src/goto.c:148-153 | a label is missing from the table exactly if no token defines it |
| GotoSpec.DefsKept | src/goto.c:167-182 | later definitions never change an entry |
| GotoSpec.MalformedMatters | src/core-commands.c:1173-1283 | a concrete macro for which the search fails where the jump would not |
| GotoInterpreter.SelectLabel | src/goto-commands.c:138-151 | the loop over the commas selects the stretch without comma that has as many commas before it as the index says, and nothing if the index is negative or larger than the number of commas |
| GotoLaws.SelectedPicks | src/goto-commands.c:138-151 | the specified selection is that stretch, stated without splitting the list |
| GotoLaws.PicksOne | src/goto-commands.c:138-151 | there is only one such stretch |
| GotoLaws.FirstByDefault | src/goto-commands.c:132-151 | a goto without argument takes the first label |
| GotoLaws.GotoLeads | src/goto-commands.c:153-174 | a goto leads behind the first definition of its label; if there is none it fails, or goes on after itself if it has a colon |
| GotoLaws.EndRefused | src/parser.c:161-262 | a macro that ends in an open loop, or before the type of a conditional, fails; any other ends in the state it has |
| GotoInterpreter.GotoInterpreter.LabelInput | src/goto-commands.c:69-101 | the in-place label definition: first definition wins and ends a search for it; the tokens undo it |
| GotoInterpreter.GotoInterpreter.GotoDone | src/goto-commands.c:119-175 | the in-place goto: jump, search or error; the tokens undo it, except for the program counter |
| GotoInterpreter.GotoInterpreter.Step | src/parser.c:102-134 | one token in place makes the specified step and keeps the table invariant; the undo tokens it emits revert it exactly if it is not a break that loses its loop |
| GotoInterpreter.GotoInterpreter.Execute | src/parser.c:161-262 | executing a macro in place has the outcome of the specified run, with the checks for a label not found, an unterminated loop and an unterminated command at its end |
| Undo.InverseReverts | src/undo.h:82-111 | the token pushed before a change reverts exactly that change |
| Undo.ChangeAllUnder | src/undo.c:87-136 | whatever one character changes is undone by popping its tokens |
| Undo.PopPop | src/undo.c:115-136 | popping in two steps is popping at once |
| Undo.PaddingRemains | src/undo.c:104-106 | popping leaves behind the empty lists that pushing created for earlier characters |
| Undo.UndoStack.PushFor | src/undo.c:87-113 | pads the stack up to the character, so that the length assertion holds, and pushes onto its list |
| Undo.UndoStack.Perform | src/undo.h:99-111 | pushes the inverse, then changes the state |
| Undo.UndoStack.Pop | src/undo.c:115-136 | runs and removes the tokens of all later characters |
| Undo.UndoStack.Clear | src/undo.c:138-155 | drops all tokens without running them |
| CommandLineSpec.LoopAgrees | src/cmdline.c:104-175 | whenever the execution loop ends well, state and undo stack are those of a fresh replay of the effective line |
| CommandLineSpec.GoodKept | src/cmdline.c:108-172 | every iteration keeps that relation, also across a replacement and a recovery |
| CommandLineSpec.AgreesPop | src/cmdline.c:377-387 | undoing to an earlier character gives the replay of the shorter line |
| CommandLineSpec.FailureUndoneExact | src/cmdline.c:248-251 | after a failed character, undoing to position k restores the replay of the first k characters exactly if the failing one is among those undone |
| CommandLineSpec.ReplacementIsReplay | src/cmdline.c:113-141 | a replacement whose new line replays without error gives the state and undo stack of running the new line from scratch |
| CommandLineSpec.RecoveryExact | src/cmdline.c:147-163 | after a failed replacement, wherever in the inserted text it stands, the old line comes back only as far as the length of the new line less one, which is all before the replacement command exactly if the new line is as long as the old one up to and including that command; if it is longer, old and new line replay for ever |
| CommandLineSpec.RecoveryCycles | src/cmdline.c:113-163 | replacing `a}` by `bcd`, which fails at its first character, replays both lines in turn for ever |
| CommandLineSpec.RunAccepted | src/cmdline.c:108-172 | characters that replay without error are executed one after the other |
| CommandLine.CommandLine.ExecuteCharacter | src/cmdline.c:108-172 | one iteration executes, replaces, recovers or fails exactly as specified, and pushes the tokens that undo it onto the list of its character |
| CommandLine.CommandLine.Execute | src/cmdline.c:104-175 | the loop in place is the specified loop |
| CommandLine.CommandLine.Insert | src/cmdline.c:79-175 | inserting, or moving over, characters executes them; on success the line is replayed, on an error all before the failing character is; without replacements, what was rubbed out stays exactly if the new characters are its beginning, and is dropped otherwise |
| CommandLine.CommandLine.RubOut | src/cmdline.c:377-387 | removes one character and undoes it |
| CommandLine.CommandLine.RubOutWord | src/cmdline.c:446-462 | rubs out until the parser is between commands, which it reaches at the latest at the empty line |
| CommandLine.CommandLine.RubIn | src/cmdline.c:177-188 | re-executes one rubbed-out character; without replacements, it moves over it and keeps the rest |
| CommandLine.CommandLine.RubInWord | src/cmdline.c:446-462 | re-executes characters up to the end of a command or of the line |
| CommandLine.InsertedIs | src/cmdline.c:85-104 | typing the beginning of what was rubbed out moves over it and keeps what lies behind; anything else replaces it; execution starts at the insertion point |
| CommandLine.TypedText | src/cmdline.c:85-104 | without replacements, that is the line afterwards, whether or not a character fails |
| EditingLaws.RubbedInStep | src/cmdline.c:177-188 | rubbing in a character that replays moves over it and leaves the line executed up to there |
| EditingLaws.RubOutThenIn | src/cmdline.c:177-188 | any number of rub-outs and as many rub-ins, pressed one after the other, restore the line, the editor state and the undo stack |
| EditingLaws.RuboutWordIs | src/cmdline.c:446-462 | rubbing out a word goes back to the nearest place where the parser is between commands, or to the beginning |
| EditingLaws.RubinWordIs | src/cmdline.c:446-462 | rubbing in a word goes on to the nearest such place, or to the end of what was rubbed out |
| CommandLine.CommandLine.Process | src/cmdline.c:407-462 | one key has its specified effect and keeps the line replayed |
| CommandLine.CommandLine.Terminate | src/cmdline.c:288-305 | ends the command line: nothing before can be rubbed out |
| CommandLine.CommandLine.KeyPress | src/cmdline.c:205-325 | a sequence of keys has its specified effect; if it succeeds the line is replayed; if it is refused, the line is replayed exactly if the failing character was not before the insertion point, which holds for every single key but word rub-in, and, if no command replaces the line, for every sequence of keys by which the line never gets shorter than it was |
| CommandLine.PressGrows | src/cmdline.c:407-462 | without replacements, the line is after a key at least as long as the key says (typing adds its characters, rub-out takes one, rub-in takes none), and an error lies at or behind the old end |
| CommandLine.InsertingStays | src/cmdline.c:407-462 | keys that do not rub out never make the line shorter than it was |
| CommandLine.RefusedNotReplayed | src/cmdline.c:205-251 | on the line `a`, rubbing out and typing a failing `x` as one unit leaves the `x` in the effective line and its effects in the state |
| Strings.StringDiff | src/string-utils.c:100-110 | the loop finds the length of the common prefix |
| Strings.DiffUnique | src/string-utils.c:88-99 | the common prefix ends where the strings first differ or one ends |
| Strings.StringCmp | src/string-utils.c:143-157 | the sign of the result is the lexicographic order of the bytes, which `Strings.LessExact` fixes; zero exactly for equal strings |
| Strings.LessExact | src/string-utils.c:143-157 | strings compare as the base-256 numbers that their bytes spell, as far as both reach, and a proper prefix comes first |
| Strings.NumbersCompare | src/string-utils.c:143-157 | strings of one length are ordered as the numbers their bytes spell |
| Strings.LessTransitive | src/string-utils.c:143-157 | the order is transitive |
| Strings.LessTotal | src/string-utils.c:143-157 | the order is total and irreflexive |
| Strings.PrefixConvex | src/string-utils.c:143-157 | strings with a given prefix are neighbours in the order |
| RedBlackSpec.FixLinkOrder | contrib/rb3ptr/rb3ptr.c:142-207 | rebalancing after linking keeps the in-order sequence |
| RedBlackSpec.FixLinkValid | contrib/rb3ptr/rb3ptr.c:142-207 | it repairs a red node below a red one: equal black heights, no red-red link, black root |
| RedBlackSpec.FixUnlinkOrder | contrib/rb3ptr/rb3ptr.c:209-273 | rebalancing after unlinking keeps the in-order sequence |
| RedBlackSpec.FixUnlinkValid | contrib/rb3ptr/rb3ptr.c:209-273 | it makes up for a missing black node, whichever of its cases occur |
| RedBlackSpec.UnlinkOrder | contrib/rb3ptr/rb3ptr.c:313-358 | unlinking any node, with substitution of its successor if it has two children, removes exactly that element |
| RedBlackSpec.UnlinkValid | contrib/rb3ptr/rb3ptr.c:313-358 | unlinking any node keeps the red-black invariant |
| RedBlackSpec.UnlinkOuterOrder | contrib/rb3ptr/rb3ptr.c:313-341 | unlinking a node with at most one child removes exactly that element |
| RedBlackSpec.UnlinkOuterValid | contrib/rb3ptr/rb3ptr.c:313-341 | unlinking a node with at most one child keeps the red-black invariant |
| RedBlackSpec.HeightBound | contrib/rb3ptr/rb3ptr.c:453-489 | the height of a valid tree of n nodes is at most 2 log2(n + 1) |
| RedBlackSpec.PlugRB | contrib/rb3ptr/rb3ptr.c:453-489 | a valid tree is valid around every one of its places |
| RedBlackHeap.ModelsPlug | contrib/rb3ptr/rb3ptr.h:69-73 | memory holds a tree exactly if it holds each part in its place, with consistent parents and directions |
| RedBlackHeap.Connect | contrib/rb3ptr/rb3ptr.c:69-73 | sets a child link with its colour and the parent link with its direction |
| RedBlackHeap.ConnectNull | contrib/rb3ptr/rb3ptr.c:75-80 | the same for a child that may be missing |
| RedBlackRotate.RotateTwice | contrib/rb3ptr/rb3ptr.c:180-192 | relinking a node above its parent and grandparent gives the rotated tree in memory, all other nodes keeping their links |
| RedBlackRotate.RotateOnce | contrib/rb3ptr/rb3ptr.c:193-206 | relinking a node above its parent gives the rotated tree in memory, all other nodes keeping their links |
| RedBlackTree.RebalanceAfterLink | contrib/rb3ptr/rb3ptr.c:142-207 | the in-place recursion along parent links leaves the specified tree in memory |
| RedBlackUnlink.RebalanceAfterUnlink | contrib/rb3ptr/rb3ptr.c:209-273 | the in-place recursion, with the red-sibling case calling itself on the same parent, ends and leaves the specified tree in memory |
| RedBlackUnlink.UnlinkCase | contrib/rb3ptr/rb3ptr.c:222-272 | below a parent, each of the five cases around the sibling (red sibling, both nephews black with a black or a red parent, near nephew red, far nephew red) leaves the specified tree in memory |
| RedBlackRemove.LinkAndRebalance | contrib/rb3ptr/rb3ptr.c:275-285 | linking a new node below an empty place |
| RedBlackRemove.UnlinkNoninternal | contrib/rb3ptr/rb3ptr.c:313-341 | unlinking a node with at most one child relinks memory to hold the specified tree, which `UnlinkOuterOrder` and `UnlinkOuterValid` are about |
| RedBlackRemove.UnlinkInternal | contrib/rb3ptr/rb3ptr.c:343-350 | unlinking a node with two children: its successor is unlinked and takes its place |
| RedBlackRemove.UnlinkAndRebalance | contrib/rb3ptr/rb3ptr.c:352-358 | unlinking any node relinks memory to hold the specified tree, which `UnlinkOrder` and `UnlinkValid` are about |
| RedBlackRemove.ReplaceHead | contrib/rb3ptr/rb3ptr.c:287-311 | a node takes over the links and the place of another, which leaves the tree with that node replaced |
| RedBlackRemove.GetMinmaxInSubtree | contrib/rb3ptr/rb3ptr.c:89-96 | walks to the outermost node of a subtree |
| RedBlackRemove.OutermostOrder | contrib/rb3ptr/rb3ptr.c:89-106 | the outermost node is the first or last in order |
| RedBlackNavigate.GetPrevnextAncestor | contrib/rb3ptr/rb3ptr.c:108-124 | climbing by parent directions finds the nearest node beyond the subtree |
| RedBlackNavigate.GetPrevnext | contrib/rb3ptr/rb3ptr.c:126-132 | finds the neighbour in order, or null |
| RedBlackNavigate.FindParent | contrib/rb3ptr/rb3ptr.h:451-467 | finds the node with the key, or the one place where it belongs |
| RedBlackIndex.Index.Insert | contrib/rb3ptr/rb3ptr.c:365-378 | returns the node with an equal key, or adds exactly one node in order; the invariant is kept |
| RedBlackIndex.Index.Delete | contrib/rb3ptr/rb3ptr.c:380-390 | removes exactly the node with the key, if there is one; the invariant is kept |
| RedBlackIndex.Index.GetMinmax | contrib/rb3ptr/rb3ptr.c:98-101 | the first or last node in order |
| RedBlackIndex.Index.GetNeighbour | contrib/rb3ptr/rb3ptr.c:126-132 | the node before or after the i-th one |
| RedBlackIndex.Index.List | src/rb3str.h:50-55 | walking from the minimum lists all keys in strictly increasing order of the bytes |
| RedBlackIndex.Index.Run | contrib/rb3ptr/rb3ptr.c:365-390 | after any run of insertions and deletions the index holds exactly the keys inserted and not deleted since, sorted, with bounded height |
| KeyIndex.Nfind | src/rb3str.c:64-89 | finds the first node that does not sort before the string |
| KeyIndex.AutoComplete | src/rb3str.c:104-150 | true exactly if one key matches; the inserted text is what all matching keys share beyond the string; otherwise all matching keys are offered, in order |
| KeyIndex.CountCompletions | src/rb3str.c:111-131 | the walk from the lower bound counts exactly the keys with the prefix (and the length asked for) |
| KeyIndex.Offer | src/rb3str.c:135-147 | the second walk collects the same keys |
| KeyIndex.SharedLongest | src/rb3str.c:120-129 | the minimum of the pairwise prefix lengths is the longest common prefix |
| KeyIndex.CompletionsIn | src/rb3str.c:115-119 | the completions are exactly the keys with the prefix and length |
| EolReader.Reader.Convert | src/eol.c:117-255 | returns the next slice of the buffer; the slices returned so far are the normalised text seen so far, across any reads |
| EolReader.Reader.ConvertAll | src/eol.c:258-289 | for any split into reads the result is the text with every CRLF, CR and LF replaced by LF; the style is the kind of the first sequence, inconsistent exactly if another kind occurs; it fails exactly if a read fails |
| EolReader.Reader.Scan | src/eol.c:187-254 | scans to the end of the buffer or to the next CRLF, rewriting CR in place |
| EolReader.Reader.ScanChar | src/eol.c:188-244 | one character, with the style it completes |
| EolReader.Reader.Refill | src/eol.c:129-156 | reads on, or notes a CR that ended the text |
| EolSpec.NormalizeNext | src/eol.c:187-245 | the normalised text after one more character |
| EolSpec.KindsNext | src/eol.c:187-245 | the kinds of the sequences after one more character |
| EolSpec.LineIs | src/eol.c:187-245 | a line without end-of-line characters stays as it is, and CRLF, LF, or a CR not before an LF behind it becomes one LF and is recorded as its kind |
| EolSpec.LoadSave | src/view.c:257-300 | expanding the normalised text in one style reproduces the file exactly if all its sequences are of that style |
| EolSpec.SaveLoadExact | src/view.c:507-534 | normalising what was written gives the text exactly if it has no CR |
| EolWriterSpec.WriterExact | src/eol.c:373-453 | calling the writer again with what it did not consume is right for every sink exactly if the document has no CR LF pair or ends of lines are single characters: what is written is always a prefix of the translated document, and all of it when all is consumed |
| EolWriterSpec.ResumableIsRight | src/eol.c:373-453 | it is right also for documents with such pairs if the sink never takes one character of several |
| EolWriterSpec.OneByOneWrong | src/eol.c:398-407 | a sink that takes one character at a time gets an end of line too many for a CR LF pair |
| EolWriterSpec.ConvertKeeps | src/eol.c:373-453 | one call, on any part of the rest, leaves the writer ready to resume, even in the middle of a CRLF |
| EolWriterSpec.PumpKeeps | src/eol.c:373-453 | after any number of calls, each given the unconsumed rest, what was written is a prefix of the translated document, and the writer is ready to resume unless the sink failed (documents and sinks as in `WriterExact`) |
| EolWriterSpec.ChunksTranslate | src/eol.c:356-372 | with a sink that takes everything, any document in any chunks is translated |
| EolWriter.EolWriter.Convert | src/eol.c:373-453 | the writer in place, with its state and last character |
| EolWriter.Save | src/view.c:507-534 | writing the parts before and after the gap writes the translated document, and each part is consumed |
| EolWriter.LoadSave | src/view.c:257-300 | loading a file by any reads and saving it reproduces it byte for byte exactly if no inconsistency was reported |
| EolWriter.SaveLoad | src/view.c:507-534 | saving in any mode and loading by reads of any size gives the document back exactly if it has no CR |
| TailQueue.InsertBefore | src/list.h:68-75 | links an entry before another |
| TailQueue.InsertTail | src/list.h:77-84 | links an entry at the end |
| TailQueue.Remove | src/list.h:86-94 | unlinks an entry, which keeps its own links |
| TailQueue.Last | src/ring.c:149-153 | finds the last entry through the one before it |
| TailQueue.Previous | src/ring.h:44-49 | finds the entry before one that was just removed from the end |
| Ring.Ring.EditByName | src/ring.c:265-305 | edits the first buffer of that name, or appends a new one with the tokens that undo it |
| Ring.Ring.Edit | src/ring.c:265-305 | editing by name, undone token by token, restores the ring |
| Ring.Ring.EditById | src/ring.c:307-322 | editing by number, undone, restores the current buffer |
| Ring.Ring.Close | src/ring.c:345-373 | closing a buffer, also the only one, edits a neighbour or a new buffer; undone, it restores the ring |
| Ring.Ring.ReinsertAction | src/ring.c:155-170 | a closed buffer is put back to where its own stale links say |
| Ring.Ring.Pop | src/ring.c:155-170 | undoing one token has its effect on the queue and the current buffer, and takes it off the log |
| Ring.RestoresLast | src/ring.c:356-370 | when the only buffer was closed, it is re-linked before the buffer that replaced it is removed |
| Ring.Ring.Run | src/ring.c:265-380 | any sequence of openings, switches and closings leaves the names in order and the current place that the operations have on a plain list, and can be undone |
| Ring.OpenIs | src/ring.c:265-307 | opening makes the first buffer of the name current, or a new one at the end |
| Ring.SwitchIs | src/ring.c:215-224 | buffers are numbered from 1 in ring order |
| Ring.ShutIs | src/ring.c:345-373 | closing keeps the other buffers in order; if the buffer was current, the next one becomes current, or the previous one if it was the last, or a new unnamed one if it was the only one |
| Ring.Ring.RunAndUndo | src/ring.c:155-170 | undoing any such sequence leaves the same buffers in the same order, linked both ways, and the same current buffer |
| NumberFormat.Format | src/expressions.c:429-450 | printing stays inside the 66 bytes for every word and every radix from 2 on, and leaves the digits in the radix, a sign if negative, and the final null |
| NumberFormat.WordFits | src/expressions.h:151-153 | no word has more than 64 digits |
| NumberFormat.DigitsSpell | src/expressions.c:436-445 | each place of a printed number shows the character that `0`-`9` and `A`-`Z` give for its digit, with no leading zero |
| NumberFormat.SignIs | src/expressions.c:446-447 | a minus is printed exactly for negative numbers |
| NumberFormat.DigitRead | src/core-commands.c:298-312 | digits are read in either case as far as the radix goes, and nothing else is |
| NumberFormat.Read | src/core-commands.c:286-316 | reads the run of digits at a position, after an optional sign, modulo 2^64 |
| NumberFormat.ReadsBack | src/core-commands.c:286-316 | for radix 2 to 36, what was printed reads back as the same word if the next character is no digit of the radix |
| Search.DoSearch | src/search.c:576-675 | selects the n-th match of a range, or the n-th last by the circular array, with the exact shortfall otherwise; a count of 0 matches nothing and counts below zero |
| Search.SearchRing | src/search.c:769-828 | over the ring, the residual count selects the n-th match in ring order, or the n-th going backwards, and the buffer it is in; otherwise the shortfall is exact and the position is restored |
| Search.CountOn | src/search.c:774-812 | counting on with the residual in the next buffer is counting over both |
| Search.FoundStays | src/search.c:780-794 | buffers after the match do not matter |
| Search.DistanceIs | src/search.c:780-812 | a search that ends in the buffer where it began visits the whole ring once |
| Search.ForwardIs | src/search.c:769-812 | a forward search considers the rest of its first buffer, the buffers behind it around the end of the ring, and the last one up to the position where it began |
| Search.BackwardIs | src/search.c:769-812 | a backward search considers the same in the other direction |
| StringBuilding.EscapeExact | src/parser.c:1008-1035 | feeding the escaped form of a string into an open argument appends exactly that string and changes nothing else, exactly if the terminator is not `^Q` or nothing had to be escaped |
| StringBuilding.Escape | src/parser.c:1008-1035 | the loop builds the escaped form |
| StringBuilding.StringArgument.InputNext | src/parser.c:1083-1184 | one character of an argument in place: nesting and building, and at the termination handing out the collected string and making ready for the next argument; the tokens undo it, termination included |
| StringBuilding.StringArgument.Collect | src/parser.c:1057-1171 | a whole string is fed to the argument up to its termination; the tokens undo it |
| StringBuilding.StringArgument.CollectEscaped | src/parser.c:1008-1035 | feeding what escaping makes of a string to the builder in place appends exactly that string, under the condition of `EscapeExact`; the tokens undo it |
| StringBuilding.StringArgument.BuildNext | src/parser.c:501-700 | one character of string building updates the builder fields and the string as specified; the tokens revert everything but the text, which is only appended to |
| StringBuilding.BracesNest | src/parser.c:1088-1101 | an argument in braces contains the nested braces and ends with the one that closes it |
| StringBuilding.TerminatorEnds | src/parser.c:1102-1107 | any other argument ends with the first character that is its terminator, in either case |
| Ascii.CasesAre | src/string-utils.h:32-36 | the two cases of the 26 letters; no other character is changed |
| StringBuilding.CaretIsControl | src/parser.c:501-620 | a caret and a character do what the control character does |
| StringBuilding.CaseIs | src/parser.c:501-700 | `^V` and `^W` change the case of the next character, and typed twice that of all that follow |
| StringBuilding.CaretStays | src/parser.c:501-620 | a caret behind a caret is one caret, and a caret before a character without control code stays |
| StringBuilding.QuoteIs | src/parser.c:501-700 | `^Q` and `^R` take the next character as it is, but for the case |
| StringBuilding.DisabledIs | src/parser.c:501-620 | after `^P` all characters are taken as they are |
| StringBuilding.EscapedOne | src/parser.c:1008-1035 | the terminator, and the bracket that closes it, are escaped by `^Q`; no other character is |
| StringBuilding.EscapedConcat | src/parser.c:1008-1035 | strings are escaped character by character |
| WordMotion.FindWords | src/move-commands.c:241-329 | moves by n words across the gap; enough words exactly if the last one begins inside the document |
| WordMotion.FindForward | src/move-commands.c:255-291 | the forward scan, switching ranges at the gap |
| WordMotion.FindBackward | src/move-commands.c:293-328 | the backward scan, switching ranges at the gap |
| WordMotion.OnwardIsNext | src/move-commands.c:225-239 | one word forwards leads to the next boundary, or to the end |
| WordMotion.BackIsPrevious | src/move-commands.c:225-239 | one word backwards leads to the previous boundary, or to the beginning |

## Left out

- Colon-modified and pass-through loops (`:<`, `:>`, `:;`), the `F` commands that leave or repeat control structures, and the `@` and `:` modifiers as parser state.
- Ordinary commands: they are an arbitrary total function of the arguments above the brace and of the rest of the state, one character each; in the goto model, labels and goto commands are single tokens after string building.
- Runs of macros and command lines are bounded by a budget where the source may loop for ever; the statements hold for every budget.
- MacroSimulation.MacroRefines: a unary minus before `(` is followed only into its translation as a multiplication; after a brace has been left behind, the flat run is not followed further.
- Goto: redefinition warnings, collecting the characters of a label, and the label named in the error message (after a complete parse the source names an empty one).
- GotoInterpreter.GotoInterpreter.Execute: the end of a macro is checked for a conditional without its type, the one command of this model that can be incomplete there; returning from a macro is not modelled.
- StackLaws.MinusExact: numerals beyond the largest word, which wrap while they are typed.
- Zero and negative exponents of POW, and INT_MIN divided by -1: the first follow the special cases of the source, the second is taken to wrap.
- A replacement whose new line begins with everything executed so far, the replacement command included, is excluded (`ReplacesProperly`): it would ask for itself again.
- CommandLineSpec.LoopAgrees: assumes that every change a character makes pushes the token that reverts it, also when the character fails. Of the modelled commands exactly the break that loses its loop does not (`MacroInterpreter.Interpreter.BreakLoop`, `MacroExamples.BreakLosesLoop`): after such a character the state is the replay without that loop. The outcome of a character depends on the editor state and on the line up to it, not on clocks or files; the undo stacks compared are equal up to the empty lists at their end (`Undo.PaddingRemains`).
- The token that saves a loop counter is taken to name the place of the loop on the loop stack; the source keeps a pointer into the array.
- Command lines are sequences of single-byte characters; the word rub-out inside string arguments and register names stops at other places than between commands and is not modelled.
- CommandLine.CommandLine.Terminate: what else is reset at the end of a command line (goto table, stacks, loop stack) is one function of the editor state.
- Augmentation callbacks of the red-black tree; case-insensitive keys, whose order and prefix test do not agree; freeing of nodes.
- Ring.Ring.Run: hooks, the popup, registers being edited, files and views; freeing a buffer is an undo token without effect on the ring.
- Radix 0, 1 and negative radices, for which printing divides by zero or does not end.
- Search.SearchRing: a count of 0 (`Search.DoSearch` states what it does to one range); the regular expression engine, whose matches in a range are taken as given, and the conversion of positions.
- StringBuilding.EscapeExact: strings with a caret or one of the control characters that string building interprets, other than the terminator; and what follows `^E`.
- StringBuilding.StringArgument.InputNext: what the command does with the string, and the interactive processing of the inserted part; the `@` modifier that a brace terminator sets for the next argument.
- StringBuilding.StringArgument.BuildNext: what follows `^E`.
- The builder's case folding is exact for ASCII and an arbitrary function beyond.
- I/O, clocks, Scintilla messages, documents, codepages, Q-register tables, memory limits, the user interface, options and key bindings.
- The glob compiler and the symbol tables, which would only add easy members.
