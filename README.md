# Regex front end and Thompson NFA builder, in Dafny

This project models the regex-to-NFA pipeline of `src/main.cpp`:

- **insertConcatenation** makes implied concatenation explicit by inserting the marker `.`.
- **convertToPostfix** turns that infix string into postfix. It uses a shunting-yard operator stack and the precedence table of `getOperatorPrecedence`.
- **NFABuilder::constructFromPostfix** runs Thompson's construction over the postfix tokens. It keeps an append-only arena of automaton states and a stack of `(start, end)` fragments.

## Structure

| file | module | what it holds |
|---|---|---|
| `syntax.dfy` | `Results`, `Syntax` | `Result`/`Option`; the character classes and the precedence table |
| `normalizer.dfy` | `Normalizer` | the normalizer as a loop method, and `Normalized`, the function that specifies it |
| `postfix.dfy` | `Postfix` | the converter's step semantics as functions, and the converter as methods over an explicit stack |
| `postfix_properties.dfy` | `PostfixProperties` | what the converter guarantees |
| `thompson.dfy` | `Thompson` | the records, the per-token step functions, and the class `NFABuilder` whose `stateList` field the methods update |
| `thompson_properties.dfy` | `ThompsonProperties` | the per-token effects, index validity, failure conditions and state counts |
| `samples.dfy`, `thompson_samples.dfy` | `Samples`, `ThompsonSamples` | concrete inputs worked through the specification functions |

### How each method is specified

- Each imperative C++ routine is a Dafny `method` with the same loops. The one exception is the two operator-popping loops of `convertToPostfix` (lines 204-209 and 214-219). They differ only in their comparison, so they become a single loop whose comparison depends on the operator being pushed.
- Its `ensures` ties the result, and for `NFABuilder` the new `stateList`, to a specification function.
- The specification functions are `Normalized`, `ToPostfix` and `Construct`.
- The properties are proved as lemmas about those functions.

### How undefined behaviour is modelled

The C++ code has three cases of undefined behaviour. Each becomes an explicit error value in the model:

- `operators.pop()` on an empty stack for an unmatched `)` becomes `UnmatchedClose`.
- `fragments.top()` on an empty stack for an operator short of operands becomes `MissingOperand(token)`.
- `fragments.top()` on an empty stack for an empty postfix string becomes `NoFragment`.

### Where the model follows the code

In each case below the model follows the code as written:

- **Leftover fragments.** `constructFromPostfix` returns the top fragment even when more fragments are left below it (line 133). This is not an error. See `ThompsonProperties.ConstructOutcome` and `ThompsonSamples.LeftoverSample`.
- **Unclosed groups.** A `(` that is never closed stays on the operator stack, and the final loop (lines 227-230) emits it into the postfix string. See `Samples.UnclosedGroupSample`.
- **Stacked unary operators.** The unary popping loop (lines 204-209) can never pop, because no precedence exceeds 3. As a result, stacked unary operators come out innermost last: `a*+` becomes `a+*`. See `Postfix.UnaryPopsNothing` and `Samples.StackedUnarySample`.

## Model

| member | source | states |
|---|---|---|
| Syntax.Precedence | src/main.cpp:164-173 | The precedence is at most 3. It is positive exactly for the five operator characters that `isRegexOperator` accepts. It is 3 exactly for the unary operators. |
| Syntax.Classification | src/main.cpp:140-143 | Every character is a literal, `(`, `)` or an operator. A literal is none of the others, parentheses are not operators, and every unary operator is an operator. Precedence ranks `(` below `\|`, `\|` below `.`, and `.` below the unary operators. |
| Normalizer.InsertConcatenation | src/main.cpp:137-162 | The loop's result is `Normalized(regex)`. Its length is the input length plus the number of positions where the marker rule fires. |
| Normalizer.NormalizedLength | src/main.cpp:145-158 | The output length is the input length plus `MarkersBefore(s, \|s\|)`, the number of positions where the marker rule fires. |
| Normalizer.NormalizedLayout | src/main.cpp:145-158 | Input character `i` lands at output position `i + MarkersBefore(s, i)`. The next output character is `.` exactly when the marker rule fires at `i`: the current character ends an operand and the next one starts an operand. This holds for all `i`, so it fixes every output character. |
| Normalizer.MarkersRemoved | src/main.cpp:146 | Suppose the input has no `.` of its own. Then deleting the markers from the output gives back the input: every input character is copied once, in order. |
| Normalizer.ShortUnchanged | src/main.cpp:148 | Inputs of length 0 or 1 come back unchanged: no marker follows the last character. |
| Postfix.ReversedAt | src/main.cpp:227-230 | Popping a stack emits it top first: entry `k` of the emitted string is entry `\|s\|-1-k` of the stack. |
| Postfix.PopBoundEffect | src/main.cpp:204-220 | Before an operator is pushed, the popping loop keeps a bottom part of the stack and emits the rest top first. Every popped entry binds at least as tightly as the new operator, and strictly more tightly when the new operator is unary. The entry left on top does not. |
| Postfix.PopToOpenSucceeds | src/main.cpp:193-197 | Handling `)` succeeds exactly when the operator stack holds a `(`. |
| Postfix.PopToOpenEffect | src/main.cpp:193-197 | On success, handling `)` stops at the topmost `(`, emits everything above it top first, drops that `(`, and keeps everything below it. |
| Postfix.UnaryPopsNothing | src/main.cpp:203-209 | A unary operator pops nothing before it is pushed. |
| Postfix.CloseGroup | src/main.cpp:192-198 | The loop's result equals `PopToOpen`. It returns `UnmatchedClose` when the stack runs empty. |
| Postfix.PopForOperator | src/main.cpp:201-220 | The popping loop compares strictly (`>`) for a unary operator and with `>=` for a binary one. Its output and stack equal `PopBound` for the operator being pushed. |
| Postfix.ConvertToPostfix | src/main.cpp:175-233 | The result equals `ToPostfix(infix)`: the state after all characters, with the remaining stack emitted top first, or the error met on the way. |
| PostfixProperties.StepLiteral | src/main.cpp:182-184 | A literal is appended to the output. The state keeps its shape, the literal order and the character count. |
| PostfixProperties.StepOpen | src/main.cpp:187-189 | `(` is pushed. The stack stays ordered between parentheses. |
| PostfixProperties.StepClose | src/main.cpp:192-198 | `)` fails exactly when no `(` is on the stack. On success it keeps the stack's shape and the literal order, and only the `(`/`)` pair disappears. |
| PostfixProperties.StepOperator | src/main.cpp:201-223 | An operator never fails. After the popping loop and the push, the stack is still ordered by precedence between parentheses, the literal order is unchanged, and no character is lost. |
| PostfixProperties.StepPreserves | src/main.cpp:179-224 | One character fails exactly when it is a `)` and the stack holds no `(`. Otherwise the step keeps the state's shape, the literal order, and every character except a matched `(`/`)` pair. |
| PostfixProperties.RunPreserves | src/main.cpp:179-224 | A run fails exactly when some `)` finds no open group. Otherwise it keeps shape, literal order and character counts over the whole input. |
| PostfixProperties.FlushContents | src/main.cpp:226-230 | The final emission adds every stack entry and no literal or `)` to the output. |
| PostfixProperties.ToPostfixContents | src/main.cpp:175-233 | Conversion fails exactly on input with an unmatched `)`. On success the literals appear in input order, and the output is the input minus one `(`/`)` pair per `)`. It holds no `)`, and it holds one `(` per unclosed group. |
| PostfixProperties.BalancedPostfix | src/main.cpp:187-230 | Balanced input converts successfully. The output has no parenthesis, its length is the input length minus the number of parentheses, and it is a permutation of the input with the parentheses removed. |
| PostfixProperties.PairsOnlyParens | src/main.cpp:187-199 | The parentheses consumed by matched groups hold no character other than `(` and `)`. |
| PostfixProperties.OperatorStackOrdered | src/main.cpp:201-222 | After every prefix of the input, the operator stack holds only `(` and operators. Between `(` entries, precedences never decrease from bottom to top. |
| Samples.NormalizeSample | src/main.cpp:145-158 | `a(b)*c` normalizes to `a.(b)*.c`. |
| Samples.PrecedenceSample | src/main.cpp:212-222 | `a.b\|c` converts to `ab.c\|`: concatenation binds tighter than union. |
| Samples.StackedUnarySample | src/main.cpp:203-209 | `a*+` converts to `a+*`. |
| Samples.UnclosedGroupSample | src/main.cpp:226-230 | `(a` converts to `a(`: an unclosed `(` is emitted. |
| Samples.UnmatchedCloseSample | src/main.cpp:193-197 | `a)` fails with `UnmatchedClose`. |
| Thompson.Step | src/main.cpp:42-129 | A token that succeeds leaves every fragment on the stack naming an existing state. |
| Thompson.NFABuilder.constructor | src/main.cpp:27-30 | A new builder has an empty state arena. |
| Thompson.NFABuilder.CreateState | src/main.cpp:33-36 | Appends exactly one state without moves, leaves the earlier states as they were, and returns the old arena size as the new index. |
| Thompson.NFABuilder.AddEpsilonMove | src/main.cpp:58 | The arena becomes `AddEpsilon`: the epsilon move is appended to one state. |
| Thompson.NFABuilder.AddSymbolMove | src/main.cpp:49 | The arena becomes `AddSymbol`: the symbol move is appended to one state, and a symbol not yet in the map starts with no moves. |
| Thompson.NFABuilder.LiteralToken | src/main.cpp:44-51 | The new arena and fragment stack equal `LiteralStep`. |
| Thompson.NFABuilder.ConcatToken | src/main.cpp:53-60 | The new arena and fragment stack equal `ConcatStep`. |
| Thompson.NFABuilder.UnionToken | src/main.cpp:62-77 | The new arena and fragment stack equal `UnionStep`. |
| Thompson.NFABuilder.RepeatToken | src/main.cpp:79-129 | The new arena and fragment stack equal `RepeatStep` for `*`, `+` and `?`. |
| Thompson.NFABuilder.ConstructFromPostfix | src/main.cpp:39-134 | The final arena and the result equal `Construct(old arena, postfix)`: the top fragment, or the error that stopped the loop. |
| ThompsonProperties.FreshStatesEdges | src/main.cpp:33-36 | Fresh states add no epsilon move. |
| ThompsonProperties.AddEpsilonEdges | src/main.cpp:58 | Appending an epsilon move adds exactly that (from, to) pair to the arena's epsilon moves. |
| ThompsonProperties.AddSymbolEdges | src/main.cpp:49 | A symbol move changes no epsilon move. |
| ThompsonProperties.LiteralEffect | src/main.cpp:44-51 | A literal adds two states joined by one move on the literal, adds no epsilon move, leaves earlier states unchanged, and pushes one fragment. |
| ThompsonProperties.ConcatEffect | src/main.cpp:53-60 | `.` adds no state and exactly the epsilon move from the first fragment's exit to the second's entry. It keeps all symbol moves and replaces two fragments by one. |
| ThompsonProperties.UnionShape | src/main.cpp:62-77 | `\|` adds two states without symbol moves, keeps earlier symbol moves, and replaces two fragments by the new one. |
| ThompsonProperties.UnionEffect | src/main.cpp:62-77 | `\|` adds exactly four epsilon moves: from the new entry to both entries, and from both exits to the new exit. |
| ThompsonProperties.RepeatShape | src/main.cpp:79-129 | `*`, `+` and `?` add two states without symbol moves, keep earlier symbol moves, and replace the top fragment by the new one. |
| ThompsonProperties.StarEffect | src/main.cpp:82-95 | `*` adds exactly four epsilon moves: enter, skip, loop back, leave. |
| ThompsonProperties.PlusEffect | src/main.cpp:100-112 | `+` adds exactly three epsilon moves: enter, loop back, leave. |
| ThompsonProperties.PlusNeedsOnePass | src/main.cpp:100-112 | After `+` there is no epsilon move from the new entry to the new exit. |
| ThompsonProperties.OptionalEffect | src/main.cpp:117-129 | `?` adds exactly three epsilon moves: enter, skip, leave. |
| ThompsonProperties.OptionalAddsNoLoop | src/main.cpp:117-129 | `?` adds no epsilon move from the fragment's exit back to its entry. |
| ThompsonProperties.StepWellFormed | src/main.cpp:42-129 | Every token keeps every move target and every fragment endpoint below the arena size. |
| ThompsonProperties.RunWellFormed | src/main.cpp:42-130 | A run of tokens keeps every index inside the arena, even when it stops early. |
| ThompsonProperties.ConstructValid | src/main.cpp:39-134 | On a valid arena, every move of the final arena and both ends of the returned fragment name existing states. |
| ThompsonProperties.StepCounts | src/main.cpp:42-129 | A token fails exactly when the stack holds fewer fragments than it pops. Otherwise it pops that many, pushes one, and allocates two states, or none for `.`. |
| ThompsonProperties.RunCounts | src/main.cpp:42-130 | A run fails exactly when some token finds too few fragments, and it reports that token. A full run changes the depth by the net fragment count and allocates two states per token other than `.`. |
| ThompsonProperties.ConstructOutcome | src/main.cpp:39-134 | Construction fails with `NoFragment` exactly on empty input. It succeeds exactly when the input is non-empty and every operator finds its operands, and it then allocates two states per token other than `.`. |
| ThompsonProperties.StepExtends | src/main.cpp:42-129 | A token never removes a state or a move. States are only appended, and existing states only gain epsilon moves. |
| ThompsonProperties.RunExtends | src/main.cpp:42-130 | A run never removes a state or a move, even when it stops on an error. |
| ThompsonProperties.ConstructExtends | src/main.cpp:39-134 | Construction on an existing arena keeps its states, up to appended epsilon moves. |
| ThompsonSamples.ConcatSample | src/main.cpp:44-60 | `ab.` builds four states: `0 -a-> 1`, `1 -ε-> 2`, `2 -b-> 3`. The result is the fragment (0, 3). |
| ThompsonSamples.LeftoverSample | src/main.cpp:132-133 | `ab` returns the top fragment (2, 3) and ignores the fragment below it. |
| ThompsonSamples.MissingOperandSample | src/main.cpp:55-56 | `a.` fails with `MissingOperand('.')`. |
| ThompsonSamples.EmptySample | src/main.cpp:133 | The empty postfix string fails with `NoFragment` and allocates nothing. |

## Left out

- `main` (src/main.cpp:235-238) only prints a banner. Console I/O is not modelled.
- Subset construction and DFA simulation are not part of this model: `src/main.cpp` contains neither.
- Integer width is not modelled. State indices are unbounded `nat` rather than `int`. Overflow of `static_cast<int>(stateList.size())` would need 2^31 states and is ignored. The `-1` defaults of the `NFASegment` constructor are never used by the modelled code, so segments always hold two indices.
- `std::map` iteration order and character encoding are not modelled. Symbol moves are a Dafny `map` from `char` to a sequence of targets.
- `.` is reserved as the concatenation marker: `Normalizer.MarkersRemoved` requires an input without `.`. The C++ normalizer treats `.` as a non-literal and the converter treats it as an operator, so a `.` in the raw regex has no literal meaning.
- After undefined behaviour, the C++ program's state is undefined. The model instead stops at the first error:
  - the converter returns `UnmatchedClose`;
  - `ConstructFromPostfix` returns the error and keeps the states allocated so far.
- The fragment stack and operator stack are `std::stack` locals in the source. In the model they are Dafny sequences (top last) held in local variables. Only `stateList` is a class field.
