# hanoi.js in Dafny

`hanoi.js` is a toolchain for a tiny stack language with three towers.
`compile` turns source text into an instruction array in one pass. It tries
the rules of the `LEX` table in order on the remaining text. The first rule
whose anchored pattern matches either runs its `compile` action or pushes
its own table index as the opcode, and then the matched prefix is dropped.
Labels `[name]` and jumps `(name)` are resolved in the same pass by
back-patching. `run` is a fetch/execute loop over that array. It works on
three towers, one of which is the current stack, and runs each opcode's
`does` action.

The project has five files:

- `Lexer.dfy` (module `Lexer`, pure). This holds the rule table, with each
  opcode being the rule's position in the table. It has hand-written prefix
  matchers for every pattern: greedy digit and blank runs, and delimited
  tokens that run to the last closing delimiter on the line. It also has
  the JavaScript `.` and `\s` character classes, first-match selection and
  the whole token stream `Lex`. Each matcher is proved to return the
  longest prefix its pattern accepts. At most one rule can match at any
  position, so the table order never has to break a tie.
- `Seqs.dfy` (module `Seqs`). This holds `Reverse`, which the compiler
  (`str.split('').reverse()`) and the machine (HANOI's pop order) share.
- `Compiler.dfy` (module `Compiler`). This holds the program value
  (`inst`, and `keys` mapping each label to `Defined(jump)` or
  `Pending(unresolved slots)`) and a pure specification of every compile
  action. The class `Builder` holds the mutable `inst`/`keys` of the
  program object. Its methods perform each action in place, including the
  back-patching `for` loop. `Compile` is the driving `while` loop. Each
  method is proved to produce exactly what the specification function
  computes. The lemmas state what the source promises:
  - the label-table invariant (`WellFormed`);
  - a jump to a label the source never defines keeps `-1` in its operand
    slot;
  - a jump before its label ends up holding the label's offset, the width
    of the code before the label;
  - how each action changes the instruction array;
  - compilation as lexing followed by the compile actions;
  - failure exactly where no rule matches.
- `Vm.dfy` (module `Vm`). This holds the machine state: three towers, the
  index of the current tower, `pc`, and the emitted character codes. It has
  a pure specification of every `does` action and of one machine step, and
  `Exec`, which runs to the end. The class `Machine` keeps the towers in an
  `array<seq<int>>` and updates them in place, one method per action. `Run`
  is the fetch/execute `while` loop. The lemmas give the stack shape per
  opcode, where HANOI moves the items, and what PRINT writes.
- `Toolchain.dfy` (modules `Toolchain` and `ToolchainExamples`). These
  lemmas join the compiler and the machine. A numeric literal compiles to
  `[0, value]` and pushes `value` at run time. A string literal followed by
  `>` writes the string in its original order. `a b+` leaves `a + b`.
  Forward jumps, backward jumps and undefined jumps compile as the label
  table prescribes.

Behaviour the source leaves undefined becomes a precondition of the
action, or `None` from `Step`. The cases are:

- popping or duplicating on an empty tower where the result would be used;
- a HANOI target outside 0..2, or a HANOI move that would pop an empty
  tower;
- PRINT with no 0 on the tower;
- an opcode without a `does` action.

POP on an empty tower is defined in JavaScript: the result is discarded.
It is therefore modelled as a no-op. A HANOI onto the current tower pops
each item and pushes it straight back onto the same array, so with at
least one item under its operands it is defined for any count, and the
model accepts it. SWAP writes the top slot twice, so it
changes nothing, and it is modelled exactly so.

## Model

| member | source | states |
|---|---|---|
| Lexer.Opcode | hanoi.js:167-175 | the opcode of a rule is its position in the table: `Rules[Opcode(r)] == r` |
| Lexer.RulesAreDistinct | hanoi.js:3-140 | no rule appears twice in the table, so the position of a rule is unique |
| Lexer.IsDigit | hanoi.js:7 | `[0-9]`: the ten decimal digit characters |
| Lexer.IsLineTerminator | hanoi.js:65 | the characters `.` does not match, used by the LABEL, JUMP, STRING_LITERAL and COMMENT patterns (hanoi.js:81, 114, 131): `\n`, `\r`, U+2028 and U+2029 |
| Lexer.IsSpace | hanoi.js:136 | the ECMAScript `\s` class: tab, line feed, vertical tab, form feed, carriage return, space, U+00A0, U+1680, U+2000 to U+200A, U+2028, U+2029, U+202F, U+205F, U+3000 and U+FEFF |
| Lexer.Symbol | hanoi.js:20-107 | the one character each of HANOI `_`, SWAP `$`, POP `^`, PRINT `>`, ADD `+`, DUP `"` and OUT `.` matches; `SymbolToken` proves it is a token of its rule |
| Lexer.Accepts | hanoi.js:5-138 | the language of every `reg`, written out as which prefixes `s[..n]` the anchored pattern matches; `MatchIsLongestAccepted` proves the matchers against it |
| Lexer.Span | hanoi.js:7 | a greedy run of one character class (`[0-9]+`, `\s+`, `.*`) is the longest prefix of that class: all its characters qualify, and the next one does not |
| Lexer.LastIndex | hanoi.js:65 | the last occurrence of a character in a range, or none; nothing after it in the range is that character |
| Lexer.LineEnd | hanoi.js:65 | the first line terminator after the opening delimiter, or the end of the input, bounds every range that `.` can cover |
| Lexer.DelimitedIsLongest | hanoi.js:65 | `^\[.*\]` (and likewise `^\(.*\)` at line 81 and `^'.*'` at line 114) matches exactly when a closing delimiter follows on the same line, and the match is the longest accepted prefix, up to the last closing delimiter on the line |
| Lexer.CommentIsLongest | hanoi.js:131 | `^;.*(?:$\|\n)` without the multiline flag matches the rest of the line including its `\n`, or the rest of the input when it has no line terminator; it is the longest accepted prefix |
| Lexer.MatchDelimited | hanoi.js:65 | the matcher of `^\[.*\]` (and of the JUMP and STRING_LITERAL patterns at lines 81 and 114): a match is at least the two delimiters; `DelimitedIsLongest` proves it is the longest accepted prefix |
| Lexer.MatchComment | hanoi.js:131 | the matcher of the COMMENT pattern: a non-empty prefix; `CommentIsLongest` proves it is the longest accepted prefix |
| Lexer.Match | hanoi.js:5-138 | the matcher of each rule's `reg`: a non-empty prefix of the input; `MatchIsLongestAccepted` proves it is the longest prefix the pattern accepts |
| Lexer.MatchIsLongestAccepted | hanoi.js:170-171 | for every rule, the matcher returns the longest prefix the rule's pattern accepts, and none when no prefix is accepted |
| Lexer.FirstMatch | hanoi.js:167-179 | the rule chosen is a matching rule and every rule before it in the table fails; none means that every rule fails |
| Lexer.FirstMatchFrom | hanoi.js:167-179 | the `for` loop of `next` from rule `i` on; `FirstMatchFromMatches` and `FirstMatchFromSkipsOnlyFailures` characterise it |
| Lexer.FirstMatchFromMatches | hanoi.js:167-171 | the search from position `i` returns a rule at or after `i`, together with its match |
| Lexer.FirstMatchFromSkipsOnlyFailures | hanoi.js:167-170 | every rule the search skips fails to match |
| Lexer.AtMostOneRuleMatches | hanoi.js:167-178 | two rules never both match the same input, because their first characters differ |
| Lexer.OtherRulesFail | hanoi.js:167-178 | once one rule matches, every other entry of the table fails |
| Lexer.MatchingRuleWins | hanoi.js:167-178 | whatever rule matches is the one the table order selects, with its own match length |
| Lexer.NextToken | hanoi.js:170-176 | the next token is a non-empty prefix of the input, and it is the text the first matching rule matched; none when no rule matches |
| Lexer.Lex | hanoi.js:185-186 | the tokens the `while` loop of `compile` consumes, and the text left where it stops; `LexConsumes`, `LexStops` and `LexTokenizes` characterise it |
| Lexer.LexConsumes | hanoi.js:185-186 | the tokens, followed by the unconsumed rest, spell the input |
| Lexer.LexStops | hanoi.js:180-186 | lexing stops only at the end of the input or where no rule matches |
| Lexer.LexTokenizes | hanoi.js:166-186 | each token is the next token of the text that remains before it |
| Compiler.Inner | hanoi.js:68 | `substring(1, length-1)`: the text without its two delimiters, character by character |
| Seqs.Reverse | hanoi.js:119 | `reverse()`: element `i` of the result is element `n-1-i` of the input |
| Compiler.Codes | hanoi.js:125 | `charCodeAt(0)` of each character, in order |
| Compiler.PushesAt | hanoi.js:123-126 | the `i`-th pushed value is the operand at slot `2i+1`, after a LITERAL opcode at slot `2i` |
| Compiler.StringCode | hanoi.js:120-126 | a string of length n compiles to exactly 2(n+1) slots |
| Compiler.DecimalValue | hanoi.js:11 | `parseInt` of a run of digits; `DecimalValueOfNumeral` proves it inverts the decimal numeral |
| Compiler.Patch | hanoi.js:74-75 | every listed slot now holds the target, and every other slot is unchanged |
| Compiler.ApplyOpcode | hanoi.js:175 | a rule without `compile` appends its index; `ApplyWidth` and `ApplyAppends` characterise it |
| Compiler.ApplyLiteral | hanoi.js:8-12 | LITERAL appends `0` and the numeral's value; `ApplyWidth` and `ApplyAppends` characterise it |
| Compiler.ApplyLabel | hanoi.js:66-77 | the LABEL action; `LabelDefinition` characterises it and `ApplyLabelPreservesWellFormed` proves it keeps the label-table invariant |
| Compiler.ApplyJump | hanoi.js:82-96 | the JUMP action; `JumpReference` characterises it and `ApplyJumpPreservesWellFormed` proves it keeps the label-table invariant |
| Compiler.ApplyString | hanoi.js:115-127 | the STRING_LITERAL action: appends the code of the inner text, which `StringCode`, `StringCodePushes` and `RunPrintProgram` characterise |
| Compiler.Apply | hanoi.js:172-175 | the dispatch to a rule's `compile` action or to the opcode push; `ApplyPreservesWellFormed` and `ApplyWidth` characterise it |
| Compiler.AppendPreservesWellFormed | hanoi.js:172-175 | appending code keeps every pending slot a placeholder operand, and keeps every defined offset in range |
| Compiler.ApplyLabelPreservesWellFormed | hanoi.js:66-77 | a label definition keeps the label-table invariant |
| Compiler.ApplyJumpPreservesWellFormed | hanoi.js:82-96 | a jump reference keeps the label-table invariant |
| Compiler.ApplyPreservesWellFormed | hanoi.js:172-175 | every compile action keeps the label-table invariant |
| Compiler.LabelDefinition | hanoi.js:66-77 | the label is recorded as defined at `inst.length`; every slot pending for it now holds that offset, and its list is cleared; all other slots, and the length, are unchanged |
| Compiler.JumpReference | hanoi.js:82-96 | a jump appends exactly `[0, t]`; `t` is the label's offset when the label is defined, and the keys are then unchanged; otherwise `t` is `-1`, and exactly the new operand slot `inst.length-1` becomes pending for that label |
| Compiler.ApplyWidth | hanoi.js:172-175 | each token adds exactly its width to `inst`: 2 for a literal or jump, 2(n+1) for a string of n characters, 1 for an opcode, and 0 for a label, comment or whitespace |
| Compiler.ApplyAppends | hanoi.js:172-175 | every token except a label only appends to `inst` |
| Compiler.ApplyLabelOnlyPatchesPlaceholders | hanoi.js:71-76 | a label changes no slot except `-1` placeholders, which receive the current length |
| Compiler.FirstLine | hanoi.js:180 | `split('\n')[0]`: the longest prefix without a newline |
| Compiler.Excerpt | hanoi.js:180-182 | `substring(0, 20)` of the first line: a prefix of it, at most 20 characters, and the whole line when the line is shorter |
| Compiler.CompileFrom | hanoi.js:185-186 | the `while` loop of `compile` over the remaining input; `CompileIsLexThenApply` characterises it |
| Compiler.CompileSpec | hanoi.js:164-188 | `compile` from the empty program; `CompileIsLexThenApply`, `CompileFailsOnlyWhereNoRuleMatches` and `CompiledProgramShape` characterise it |
| Compiler.CompileStep | hanoi.js:185-186 | one iteration compiles the next token and goes on with the text after it, keeping the invariant |
| Compiler.Builder.constructor | hanoi.js:165 | the program object starts empty |
| Compiler.Builder.CompileOpcode | hanoi.js:175 | pushes the rule's index and leaves the keys alone |
| Compiler.Builder.CompileLiteral | hanoi.js:8-12 | pushes `0` and then the numeral's decimal value |
| Compiler.Builder.CompileLabel | hanoi.js:66-77 | the label action in place, including the patch loop; the result is `ApplyLabel` of the old program |
| Compiler.Builder.PatchLoop | hanoi.js:74-75 | the `for` loop overwrites the listed slots with the target and nothing else |
| Compiler.Builder.CompileJump | hanoi.js:82-96 | the jump action in place; the result is `ApplyJump` of the old program |
| Compiler.Builder.CompileString | hanoi.js:115-127 | pushes `[0, 0]` and then `[0, code]` for each character in reverse order |
| Compiler.Builder.Next | hanoi.js:166-184 | tries the rules in order: with a next token, applies it and returns the remaining text; with none, fails and leaves the program unchanged |
| Compiler.Compile | hanoi.js:164-188 | the `while` loop returns exactly the specified compilation result |
| Compiler.DecimalValueOfNumeral | hanoi.js:11 | `parseInt` of the decimal numeral of `n` is `n` |
| Compiler.ApplyAll | hanoi.js:185-186 | applying a token sequence in order keeps the invariant |
| Compiler.ApplyAllWidth | hanoi.js:185-187 | the length of the compiled array is the sum of the token widths |
| Compiler.LexYieldsLexemes | hanoi.js:166-178 | every token the lexer yields is accepted by its rule |
| Compiler.CompileIsLexThenApply | hanoi.js:164-188 | compiling is lexing the whole input, then applying the tokens in order; it fails with the excerpt of the first unparseable text |
| Compiler.CompileFailsOnlyWhereNoRuleMatches | hanoi.js:180-186 | compilation fails if and only if lexing stops where no rule matches |
| Compiler.CompileErrorExcerpt | hanoi.js:180-183 | the error carries the first 20 characters of the line where parsing stopped; the text before it was tokenized |
| Compiler.CompiledProgramShape | hanoi.js:164-188 | a compiled program has exactly the sum of its token widths in slots and satisfies the label-table invariant |
| Compiler.UndefinedLabelKeepsPlaceholder | hanoi.js:90-92 | any slot still pending after compilation holds `-1`, directly after a LITERAL opcode |
| Compiler.ApplyKeepsPending | hanoi.js:66-96 | a token that is not `[name]` keeps every slot pending for `name` pending, and keeps `name` undefined |
| Compiler.ApplyAllKeepsPending | hanoi.js:185-186 | a token sequence with no `[name]` keeps every slot pending for `name` pending |
| Compiler.ReferenceStaysPending | hanoi.js:88-92 | in a token sequence with no `[name]`, the operand slot of each `(name)`, at the sum of the widths of the tokens before it plus one, ends pending for `name` |
| Compiler.UndefinedLabelLeavesPlaceholder | hanoi.js:82-96 | in a compiled program whose source never defines label `name`, the operand slot of every jump `(name)` holds `-1` after a LITERAL opcode and is pending for `name` |
| Compiler.ReferenceLeftPending | hanoi.js:88-92 | in a token sequence with no `[name]`, the operand slot of the `i`-th token `(name)` holds `-1` after a LITERAL opcode at the end, and is pending for `name` |
| Compiler.CompiledFromTokens | hanoi.js:164-188 | a successful compilation is the compile steps of the lexed tokens applied in order to the empty program, and satisfies the label-table invariant |
| Compiler.ApplyAllKeepsResolved | hanoi.js:71-76 | a slot that no longer holds the placeholder keeps its value through every later compile step |
| Compiler.LabelResolvesPending | hanoi.js:66-77 | a definition `[name]` at the head of the tokens writes the current length of `inst` into every slot pending for `name`, and that value stays to the end |
| Compiler.PendingUntilDefinition | hanoi.js:66-96 | a slot pending for `name` ends up holding the offset of the first later `[name]`, the sum of the widths of the tokens before it |
| Compiler.ReferenceThenDefinition | hanoi.js:82-96 | a jump `(name)` to a not yet defined label, followed later by the first `[name]`, ends up as a LITERAL of that label's offset |
| Compiler.ForwardReferenceResolvedIn | hanoi.js:66-96 | from any well-formed program in which `name` is undefined, the jump `(name)` at token `i` ends up as a LITERAL of the offset of the first `[name]`, at a later token `j` |
| Compiler.ForwardReferenceResolved | hanoi.js:66-96 | in a compiled program, the operand of a jump `(name)` at token `i` whose label is first defined at a later token `j` holds that label's offset, the width of the code of the tokens before `j`, after a LITERAL opcode |
| Vm.CharCode | hanoi.js:50 | `String.fromCharCode` keeps the code modulo 2^16: the result is a code unit, and it equals the value when the value is one already |
| Vm.Emit | hanoi.js:49-52 | each written value becomes its code unit, in order |
| Vm.DoLiteral | hanoi.js:13-16 | the LITERAL action: push the operand and step onto it; `LiteralStep` and `ExecLiteral` characterise it |
| Vm.MoveOne | hanoi.js:25 | one `towers[target].push(c.pop())`; `MoveOneKeepsItems` characterises it |
| Vm.MoveCount | hanoi.js:24 | `count-- > 0` runs the loop `count` times, and not at all for a count below one |
| Vm.MoveN | hanoi.js:24-25 | `count` moves leave three towers, and the current tower is shorter by `count` unless it is the target (then any count is allowed while the tower is not empty) |
| Vm.MoveNBetweenTowers | hanoi.js:24-25 | moving between two towers takes the top `count` items off the current tower and pushes them in pop order onto the target; the third tower is untouched |
| Vm.MoveNOntoItself | hanoi.js:24-26 | moving a non-empty tower onto itself any number of times leaves all towers as they were |
| Vm.MoveOneKeepsItems | hanoi.js:25 | one pop/push move keeps the items of the three towers |
| Vm.MoveNKeepsItems | hanoi.js:24-25 | any number of moves keeps the items of the three towers |
| Vm.DoHanoi | hanoi.js:21-27 | the HANOI action; `HanoiMovesToTarget` and `HanoiKeepsItems` characterise it |
| Vm.HanoiReady | hanoi.js:21-27 | when HANOI is accepted: a target that indexes a tower on top of a count, and no move that pops an empty tower; onto the current tower with one item below the operands, any count |
| Vm.HanoiMovesToTarget | hanoi.js:21-27 | HANOI pops the target and count; onto the current tower it leaves the towers as they were, whatever the count; otherwise it moves max(count, 0) items in pop order onto the target tower; the target becomes current and the third tower is unchanged |
| Vm.HanoiKeepsItems | hanoi.js:21-27 | HANOI loses exactly the two values it popped; every other item stays on some tower |
| Vm.DoPop | hanoi.js:42 | the POP action, a no-op on an empty tower; `PopStep` characterises it |
| Vm.PopUntilZero | hanoi.js:48-52 | the PRINT loop's pops; `PopUntilZeroStep` and `PopUntilZeroWrites` characterise it |
| Vm.DoPrint | hanoi.js:47-53 | the PRINT action; `PrintStep`, `PopUntilZeroWrites` and `PrintWritesString` characterise it |
| Vm.DoAdd | hanoi.js:58-61 | the ADD action; `AddStep` characterises it |
| Vm.DoDup | hanoi.js:101-103 | the DUP action; `DupStep` characterises it |
| Vm.DoOut | hanoi.js:108-110 | the OUT action; `OutStep` characterises it |
| Vm.PopUntilZeroStep | hanoi.js:48-52 | one iteration of the PRINT loop: a popped 0 ends it, and any other value is written before the rest |
| Vm.PopUntilZeroWrites | hanoi.js:47-53 | PRINT over `a + [0] + b`, where `b` has no 0, leaves `a` and writes `b` from the top down |
| Vm.Step | hanoi.js:195-197 | a defined step keeps the state well formed and moves `pc` forward, within the array |
| Vm.Exec | hanoi.js:195-198 | the `while` loop of `run` to its end; `ExecStep`, `ExecAtEnd` and `Run` characterise it |
| Vm.LiteralStep | hanoi.js:13-16 | LITERAL pushes its operand and resumes at the slot after the operand |
| Vm.HanoiStep | hanoi.js:21-27 | HANOI with its operands there is its action followed by `pc++` |
| Vm.PrintStep | hanoi.js:47-53 | PRINT pops down to the first 0 and writes what it popped |
| Vm.SwapStep | hanoi.js:32-37 | SWAP changes nothing but `pc` |
| Vm.PopStep | hanoi.js:42 | POP shortens the current tower by one, or leaves an empty one empty; what remains is a prefix |
| Vm.AddStep | hanoi.js:58-61 | ADD replaces the top two values by their sum: one item fewer, and the rest is unchanged |
| Vm.DupStep | hanoi.js:101-103 | DUP grows the current tower by one, and the new top equals the old top |
| Vm.OutStep | hanoi.js:108-110 | OUT pops one value and writes its code unit |
| Vm.StepKeepsOtherTowers | hanoi.js:195-197 | every opcode but HANOI touches only the current tower and keeps the current index; only PRINT and OUT write output |
| Vm.StepNeedsAction | hanoi.js:196 | dispatching LABEL, JUMP, STRING_LITERAL, COMMENT or WHITESPACE, which have no `does`, is not a step |
| Vm.Machine.constructor | hanoi.js:193-194 | three empty towers, the first one current, and `pc` at 0 |
| Vm.Machine.PopValue | hanoi.js:22 | `stack.c.pop()`: returns the top of the current tower and removes it, and nothing else changes |
| Vm.Machine.Push | hanoi.js:15 | `stack.c.push(v)`: appends `v` to the current tower, and nothing else changes |
| Vm.Machine.Literal | hanoi.js:13-16 | the LITERAL action on the machine's arrays |
| Vm.Machine.Hanoi | hanoi.js:21-27 | pops target and count, and then its `while` loop performs the moves; the result is the HANOI specification |
| Vm.Machine.Swap | hanoi.js:32-37 | the two writes of SWAP leave the machine as it was |
| Vm.Machine.PopTop | hanoi.js:42 | the POP action in place |
| Vm.Machine.Print | hanoi.js:47-53 | the PRINT `while` loop pops and writes until it pops a 0 |
| Vm.Machine.Add | hanoi.js:58-61 | the ADD action in place |
| Vm.Machine.Dup | hanoi.js:101-103 | the DUP action in place |
| Vm.Machine.Out | hanoi.js:108-110 | the OUT action in place |
| Vm.Machine.Execute | hanoi.js:196-197 | dispatching `inst[pc]` and advancing `pc` is one specified step |
| Vm.Run | hanoi.js:190-202 | the fetch/execute loop ends in exactly the state `Exec` specifies |
| Toolchain.ExecStep | hanoi.js:195-198 | a defined step does not change where the run ends |
| Toolchain.ExecLiteral | hanoi.js:13-16 | a LITERAL in the array pushes its operand and continues two slots later |
| Toolchain.ExecPushes | hanoi.js:195-198 | a run of LITERALs pushes their operands in order and continues after them |
| Toolchain.StringCodePushes | hanoi.js:119-126 | the code of a string is the push of 0 followed by the codes of the characters, last one first |
| Toolchain.NoTerminatorInside | hanoi.js:49 | a string without NUL pushes no 0 above its terminator |
| Toolchain.PushesThenPrint | hanoi.js:47-53 | pushing `[0] + b` followed by PRINT writes `b` reversed and leaves the towers as they were |
| Toolchain.PushesThenPrintFromInitial | hanoi.js:47-53 | from the initial state, the code of `[0] + b` followed by PRINT runs to its end with three empty towers and `b` reversed written out |
| Toolchain.PrintWritesString | hanoi.js:47-53 | at a PRINT over `a + [0] + b`, the run continues with `a` on the tower and `b` written from the top down |
| Toolchain.RunPrintProgram | hanoi.js:115-127 | the code of a string followed by PRINT, run from the start, writes the string's characters in their original order, consumes the 0 terminator and ends with three empty towers |
| Toolchain.EmitOfText | hanoi.js:50 | for characters of the Basic Multilingual Plane, the written codes are the characters themselves |
| Toolchain.DelimitedToken | hanoi.js:65 | a bracketed, parenthesized or quoted text whose body has no line terminator is exactly one token when what follows has no closing delimiter before the end of its line (anything may follow on later lines) |
| Toolchain.SymbolToken | hanoi.js:167-175 | a one-character opcode symbol is a token of its rule |
| Toolchain.LexPrintProgram | hanoi.js:112-128 | `'text'>` is lexed as one string literal and then one PRINT |
| Toolchain.CompileStringLiteral | hanoi.js:115-127 | a string literal on one line appends exactly the code of its text, and compilation goes on after it, when no further quote follows on that line |
| Toolchain.CompileJumpToken | hanoi.js:81-96 | a jump `(name)` whose name has no line terminator, with no further `)` on its line, is the JUMP step for `name`, and compilation goes on after it |
| Toolchain.CompileLabelToken | hanoi.js:65-77 | a label `[name]` whose name has no line terminator, with no further `]` on its line, is the LABEL step for `name`, and compilation goes on after it |
| Toolchain.CompilePrintProgram | hanoi.js:164-188 | `'text'>` compiles to the code of the string followed by PRINT, with no labels |
| Toolchain.CompileFinalPrint | hanoi.js:175 | a final `>` appends the PRINT opcode |
| Toolchain.SpanOfRun | hanoi.js:7 | a run of one character class followed by the end of the input or by a character outside the class is exactly the greedy span |
| Toolchain.NumeralToken | hanoi.js:7 | any non-empty run of digits, leading zeros included, followed by the end of the input or by a non-digit, is one LITERAL token |
| Toolchain.BlankToken | hanoi.js:136 | any non-empty run of `\s` characters, followed by the end of the input or by a non-space, is one WHITESPACE token |
| Toolchain.CompileToken | hanoi.js:170-177 | when the next token is `t`, compilation applies `t` and goes on after it |
| Toolchain.CompileNumeral | hanoi.js:8-12 | any run of digits followed by the end of the input or a non-digit appends exactly `[0, parseInt(digits)]`, and compilation goes on after it |
| Toolchain.CompileBlank | hanoi.js:134-138 | any run of `\s` characters followed by the end of the input or a non-space appends nothing |
| Toolchain.CompileSymbol | hanoi.js:172-175 | a one-character opcode appends exactly its table index |
| Toolchain.CompileAddend | hanoi.js:8-12 | ` b+` after any program appends exactly `[0, b, 5]` |
| Toolchain.CompileLeadingNumeral | hanoi.js:8-12 | a source that starts with the numeral of `a`, followed by a non-digit, compiles as `[0, a]` followed by the rest |
| Toolchain.CompileSum | hanoi.js:8-12 | `a b+` compiles to `[0, a, 0, b, 5]` |
| Toolchain.RunSum | hanoi.js:58-61 | running `[0, a, 0, b, 5]` leaves exactly `[a + b]` on the first tower |
| Toolchain.RunHanoiOntoItself | hanoi.js:21-27 | `v count 0_` runs to the single item `v` on the first tower, for every count: the moves onto the current tower change nothing |
| Toolchain.ExecAtEnd | hanoi.js:195 | the run stops once `pc` reaches the end of the array |
| ToolchainExamples.JumpFromEmpty | hanoi.js:85-92 | a jump to an unknown label appends `[0, -1]` and records slot 1 as pending |
| ToolchainExamples.LabelAfterJump | hanoi.js:71-76 | the label patches the pending slot with offset 2 and becomes defined |
| ToolchainExamples.ForwardJump | hanoi.js:66-96 | `(L)[L]` compiles to `[0, 2]`, with `L` defined at 2 |
| ToolchainExamples.LabelThenJumpSteps | hanoi.js:87-94 | a defined label's offset is used at once by a later jump |
| ToolchainExamples.BackwardJump | hanoi.js:66-96 | `[L](L)` compiles to `[0, 0]`, with `L` defined at 0 |
| ToolchainExamples.UndefinedJump | hanoi.js:90-92 | `(M)` with no label `[M]` keeps `-1` in the operand slot, and that slot stays pending |
| ToolchainExamples.LeadingZeros | hanoi.js:11 | `007` as the whole input compiles to `[0, 7]`: `parseInt` reads leading zeros in decimal |

## Left out

- Console output and exit (hanoi.js:50, 109, 182-183, 191, 199-200): output is the sequence of emitted code units in the machine state. The parse error is an `Err` result carrying the 20-character excerpt. The caret line and `process.exit(1)` are not modelled.
- The sample programs and the driver (hanoi.js:142-161, 204-210) call the core and are not part of this model.
- The JavaScript regular-expression engine: each pattern is replaced by a hand-written prefix matcher, proved to return the longest accepted prefix.
- JavaScript numbers: values are mathematical integers. `parseInt` precision above 2^53 and floating-point addition are not modelled.
- UTF-16: characters are Unicode scalar values. For a character outside the Basic Multilingual Plane, `split('')` and `charCodeAt` would yield two surrogate code units; the model yields one code per character. Likewise `substring(0, 20)` in `Excerpt` (hanoi.js:182) counts 20 characters, where JavaScript counts 20 UTF-16 code units.
- Label names that are properties of `Object.prototype` (such as `constructor`) behave differently in JavaScript; the model treats every name as an ordinary key.
- The caller-side `lex.index = i` assignment (hanoi.js:169) has no effect on the result; the opcode is the loop index.
- `pc` is a field of the `Machine` instead of the program object, and `run` does not change the compiled program.
- Vm.Machine.Literal: requires an operand slot after the opcode; JavaScript would push `undefined`.
- Vm.Machine.Hanoi: requires a target in 0..2; JavaScript would index a missing tower.
- Vm.Machine.Hanoi: requires that no move pops an empty tower: `count` items below the two operands, or at least one when the target is the current tower; otherwise JavaScript pushes `undefined`.
- Vm.Machine.Hanoi: requires both operands; with only the target on the tower, JavaScript pops `undefined` as the count, moves nothing and makes the target current. The model does not follow that case.
- Vm.DoHanoi: requires `HanoiReady`, so it has no result for the `1_` case (only the target on the tower), in which JavaScript pops `undefined` as the count, moves nothing and makes the target current.
- HanoiMovesToTarget: requires both operands on the tower (`HanoiReady`), so it does not describe the `1_` case just above.
- HanoiKeepsItems: requires `HanoiReady` in the same way, so it does not cover the `1_` case, in which JavaScript drops the target and moves nothing.
- Vm.Machine.Print: requires a 0 on the current tower; JavaScript would loop forever on an exhausted tower.
- Vm.Machine.Add: requires two items; JavaScript would push `NaN`.
- Vm.Machine.Dup: requires one item; JavaScript would push `undefined`.
- Vm.Machine.Out: requires one item; JavaScript would write the code of `undefined`.
- Vm.Step: an opcode without a `does` action, or any of the cases above, is `None` instead of a JavaScript exception or `undefined` value; this includes the one defined case above, a HANOI with only its target on the tower.
- Vm.Run: requires that the run from the initial state is defined and terminates, as `Exec` specifies; diverging or failing runs are not modelled.
