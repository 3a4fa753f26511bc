# A verified model of a grammar derivation tool

The modelled program reads a small grammar file and derives a string from it. The user picks an alternative whenever a rule has more than one. It works in three stages:

1. **Tokenizer.** It turns each line into tokens:
   - lower-case letters;
   - groups (upper-case letters other than `E` and `S`);
   - the start symbol `S`;
   - epsilon (`E` or `ε`);
   - the bar `|`;
   - the arrow `=>` or `->`;
   - new-lines;
   - a final end-of-file token.

   Spaces are skipped and `//` starts a comment.
2. **Parser.** A table-driven state machine turns the tokens into an ordered list of rules. Each rule has a pattern and one or more alternatives. Rule 0 is the start rule `S => ...`.
3. **Derivation loop.**
   - The start symbol is replaced by the start rule's chosen alternative.
   - Each pass takes the first rule (from index 1, in declaration order) whose pattern occurs at or after a sticky cursor.
   - The pass moves the cursor to the first occurrence of that pattern. It splices the chosen alternative in, with its epsilons dropped.
   - When no rule matches, the cursor falls back to 0 once. If it is already 0, the run is stuck.
   - The loop ends when no group is left in the form.

The Dafny modules follow these stages:

- `Tokens`: token kinds, tokens, and equality that ignores position.
- `Errors`: the fatal errors and a result type.
- `Lexer`: the tokenizer.
- `Grammar`: rules and the shape the parser gives them.
- `Parser`: the state table, the handlers and the driver loop.
- `Matcher`: `Group.match`.
- `Engine`: `choose`, one pass and the `do ... while` loop of `run`.
- `Pipeline`: the three stages in sequence.
- `Scenarios`: concrete derivations.

Each imperative part of the program is a `method` with loops. Each method is proved equal to a specification function. For the tokenizer that function is `LexLine`/`LexFrom`; for the parser it is `Drive`, for the matcher `FirstMatch`, and for the derivation loop `Step`/`Derive`. The program's promises are then proved about those functions. For the parser, `Render` writes a grammar back out as tokens, and `Collapse` erases positions and the new-line of each blank line from a token stream; a successful parse is proved to satisfy `Collapse(tokens) == Render(grammar, ...)`. Conversely, every well-formed grammar written out one rule per line parses back to exactly itself. This holds with at most one empty line between two rules and at most one new-line after the last (`LayoutParses`, `RenderParses`).

The user's answers are a function `answers: nat -> int`: the k-th prompt (counting from 0) receives `answers(k)`. A prompt happens only when a rule has more than one alternative. A derivation need not end (`A => A`), so the loop takes `fuel`, a bound on the number of passes. A run that uses it up returns `Unfinished` with its form and cursor.

## Model

| member | source | states |
|---|---|---|
| Tokens.EqualsIgnoresPosition | index.js:53-55 | Two tokens are equal exactly when they agree once moved to the same position: kind and value decide, column and line do not |
| Lexer.ScanLine | index.js:82-108 | The character loop over one line computes exactly `LexLine` of that line from column 0 |
| Lexer.Tokenize | index.js:77-118 | The nested loops compute exactly `TokenizeSpec`: each line's tokens, then a new-line token after every line but the last, then the end-of-file token, or the first lexical error |
| Lexer.CharTokenReads | index.js:89-100 | Every one-character token lies on its own line and column and is what that character gives. `E` and `ε` are epsilon, `S` is the start symbol, a–z is a letter carrying the character, and any other A–Z is a group |
| Lexer.LexLineSound | index.js:82-108 | Every token of a line lies on that line, in strictly increasing columns, and is read from the character(s) at its column. A lexical error names a character no branch accepts, at its own line and column |
| Lexer.LexLineComplete | index.js:82-108 | The columns the scan visits are the start, one past a space or a one-character token, two past an arrow, and none after `//`. Every visited column holds a known character and yields its token: a letter for a–z, a group for any other A–Z, an epsilon for `E` or `ε`, and so on, with an arrow at its `>` column. Every token starts at a visited column. A lexical error sits at a visited column, and no visited column before it holds an unknown character |
| Lexer.CommentEndsLine | index.js:86-88 | No token comes from a column after a `//` that the scan reaches |
| Lexer.LexFromComplete | index.js:80-116 | From any line on, every column the scan of each line visits yields its token in the stream, and every token other than a new-line or end-of-file starts at a visited column. A lexical error is the first unknown character the scan meets: earlier lines are clean, and so are the visited columns before it on its own line |
| Lexer.LexFromSound | index.js:80-116 | From any line on, the stream ends with the one end-of-file token. Its new-line tokens carry exactly the line numbers of every line but the last, in order. Tokens come in line order, with each new-line token before every token of later lines. The character tokens of one line come in strictly increasing columns, so none is repeated or reordered. Each token is read from its source line |
| Lexer.TokenizeSound | index.js:77-118 | The output has exactly one end-of-file token, at the end, on the last line's last column. It has exactly `lines - 1` new-line tokens (including after blank and comment-only lines). Tokens come in line order, and a line's character tokens in strictly increasing columns. Each is read from the source at a column the scan visits, and every token is well formed, as the parser's render round trip requires. Every visited column of every line yields its token in the output. An error is the first unknown character the scan meets, at its own position |
| Parser.Transition | index.js:157-289 | Each handler keeps the reachable-state invariant. It only appends to the rules read so far: one rule is added exactly when a new-line or end-of-file closes an alternative. End-of-file leads to the end state. The handler fails exactly on an arrow that follows no pattern |
| Parser.Parse | index.js:291-307 | The token loop computes exactly `ParseSpec`, the driver over the state table |
| Parser.DriveSound | index.js:291-307 | The driver keeps the rules in declaration order (those read so far are a prefix of the result). Every rule has its parser-given shape. A stream ending in end-of-file yields at least one rule |
| Parser.DriveErrors | index.js:296-303 | The driver fails only with an unexpected token, a missing definition or a state without a table. An unexpected token comes from the stream, and its kind is not in the expected set, which is some state's key set |
| Parser.DriveRenders | index.js:157-307 | From any state whose context renders the tokens read so far, a successful drive over a stream ending in end-of-file renders the whole stream: finished rules separated by new-lines, each its pattern, an arrow and its alternatives in order separated by bars |
| Parser.ParseSound | index.js:157-307 | A successful parse of a stream ending in end-of-file is a well-formed grammar. Rule 0's pattern is `[S]`. Every later pattern is a non-empty run of letters and groups. Every rule has at least one alternative. Every alternative is non-empty, made of letters and groups, with epsilon allowed only as its first token. Over well-formed tokens the grammar renders back to the stream, ignoring positions and the new-line of a blank line: rule k's pattern and its alternatives, in written order, are the tokens of the k-th declaration. Parse errors are the parser's own kinds |
| Parser.LayoutParses | index.js:157-307 | Completeness, over tokens without positions. Take any well-formed grammar and write it one rule per line, with at most one empty line between two rules and at most one new-line after the last, then end-of-file. That text parses to exactly that grammar: its rules in order, and each alternative as written, including one led by an epsilon |
| Parser.RenderParses | index.js:157-307 | The converse of ParseSound: `Render`'s text of a well-formed grammar, with or without a final new-line, parses back to that grammar |
| Parser.ParseRejectsBadStart | index.js:158-170 | A first token other than `S`, or an `S` not followed by an arrow, is rejected naming the expected kind |
| Parser.BlankLineSeparates | index.js:171-214 | One new-line between rules is a separator, and the next letter or group starts a pattern. A second new-line, or end-of-file, right after it is rejected with the pattern state's expected kinds |
| Matcher.FirstMatch | index.js:146-154 | The result `i` is the least index at or after `from` where the pattern occurs (token equality ignoring position), and no larger than the form length minus the pattern length. The result is -1 exactly when there is none |
| Matcher.MatchesHere | index.js:148-150 | The inner loop answers whether the whole pattern occurs at `i` |
| Matcher.Match | index.js:146-154 | The labelled nested loop returns exactly `FirstMatch`: a matching index with no earlier match, or -1 when none exists |
| Engine.RemoveEpsilons | index.js:331-340 | The filter never lengthens, leaves no epsilon, and changes nothing in an epsilon-free sequence |
| Engine.RemoveEpsilonsConcat | index.js:331-340 | Filtering a concatenation is the concatenation of the filtered parts, so the kept tokens keep their order and their number |
| Engine.RemoveEpsilonsOutput | index.js:331-340 | On an alternative the parser builds, the filter drops just a leading epsilon and keeps the rest as it is |
| Engine.RemoveEpsilonsKeeps | index.js:331-340 | A token survives the filter exactly when it was there and is not an epsilon |
| Engine.Choose | index.js:322-341 | The choice succeeds exactly when there is one alternative, or several and the answer is in `1..n`. An empty list is an internal error and any other answer an invalid selection. The result is the selected alternative without epsilons |
| Engine.SelectRule | index.js:347-356 | The selected rule is the lowest index from 1 whose pattern occurs at or after the cursor, with its first occurrence. It is none exactly when no such rule matches |
| Engine.Pass | index.js:347-362 | One iteration of the loop body computes exactly `Step` |
| Engine.Loop | index.js:346-363 | The labelled `do ... while` computes exactly `Derive` within the fuel |
| Engine.Run | index.js:309-363 | `run` computes exactly `RunSpec`: the start alternative replaces `S`, then the loop runs |
| Engine.PassRewrites | index.js:328-355 | When rule `k` is the first rule to match, the cursor moves to its first occurrence `m`. The answer position advances by one exactly when the rule has more than one alternative, because only then is the user prompted. The prefix before `m` and the suffix after the pattern are kept. The chosen alternative takes exactly the pattern's place. The pass fails exactly when the choice does |
| Engine.PassFallsBack | index.js:357-362 | With no rule matching, a non-zero cursor resets to 0 and a zero cursor is a stuck error |
| Engine.NoMatchFromZero | index.js:146-154 | A pattern absent from the whole form is absent from any later offset |
| Engine.FallsBackOnceThenStuck | index.js:346-363 | If no rule matches anywhere in a form that still has a group, the run falls back to 0 at most once and then stops as stuck |
| Engine.StartFormIsRewrittenFirst | index.js:343-363 | The body runs before the group test. A start alternative that no rule matches is a stuck error, even when it has no group |
| Engine.ChooseGivesSymbols | index.js:322-341 | Over parsed alternatives, the chosen form holds only letters and groups |
| Engine.SpliceKeepsForm | index.js:353 | Splicing a form of letters and groups into one gives one |
| Engine.StepKeepsForm | index.js:347-362 | Over a parsed grammar, a pass keeps the form made of letters and groups, and the cursor within it |
| Engine.DeriveSound | index.js:346-363 | A finished derivation has no group left. Over a parsed grammar its form is letters only, and an unfinished one keeps a well-formed form |
| Engine.DeriveErrors | index.js:325-362 | The loop fails only with an empty group, an invalid selection or a stuck form |
| Engine.RunErrors | index.js:309-363 | A run fails only with an empty group, an invalid selection or a stuck form |
| Engine.RunSound | index.js:309-363 | Over a well-formed grammar, a run succeeds only with a form made of letters alone |
| Pipeline.Process | index.js:371-373 | On any file, a successful run leaves letters only. The program stops with a lexical error exactly when the tokenizer fails |
| Pipeline.Execute | index.js:371-373 | Running the three methods in sequence computes exactly `Process` |
| Scenarios.ChoiceFirst | index.js:343-363 | `S => A`, then `A` with alternatives `a` and `b`: answering 1 at the only prompt derives `a` |
| Scenarios.ChoiceSecond | index.js:343-363 | The same grammar, answering 2, derives `b` |
| Scenarios.ChoiceOutOfRange | index.js:339 | Any answer outside `1..2` stops the run with an invalid selection |
| Scenarios.TwoPromptsInOrder | index.js:343-363 | With `S` choosing between `A` and `B`, `B` between `c` and `d`, and answers 2 then 1, the first answer picks `B` for the start rule and the second picks `c`, so the run derives `c`: answers are consumed in the order the prompts appear |
| Scenarios.VanishingDerivation | index.js:340 | `S => aAb`, `A => E` derives `ab` |
| Scenarios.StickyCursorFallsBack | index.js:357-358 | `S => AB`, `B => b`, `A => a`: after two passes the cursor has fallen back to 0 with `A` still unrewritten |
| Scenarios.StickyCursorFinishes | index.js:346-363 | The third pass rewrites `A` and the run finishes with `ab` |
| Scenarios.UnknownCharacterReported | index.js:107 | A `?` on the second line is reported at line 1, column 1 (counting from 0) |
| Scenarios.ChoiceSourceTokens | index.js:77-118 | The tokens of the two-line file declaring `S => A` and `A` with alternatives `a` and `b`, with their positions |
| Scenarios.ChoiceSourceParses | index.js:291-307 | Those tokens parse into the start rule and `A` with its two alternatives |
| Scenarios.VanishingParses | index.js:171-307 | `S => aAb`, an empty line, `A => E` and a final new-line parse into `S => aAb`, `A => E`: the empty line is skipped and the epsilon alternative kept |
| Scenarios.ChoiceEndToEnd | index.js:371-373 | The whole program on that file, answering 2, finishes with `b` |

## Left out

- Command-line handling and file reading: the argument, the `.lang` suffix, path resolution, the existence check and `readFileSync` (index.js:8-24). The model starts from the file's lines.
- The `/\r?\n/` split (index.js:78). The model takes the lines as input, which always has at least one line, as the split always gives.
- `readline` and the promise-based prompt (index.js:3-6, 26-32, 337). They are replaced by the `answers` function.
- `parseInt` leniency and the NaN check (index.js:338-339). An answer is an integer, so text that is not a number, and text with trailing junk, are not modelled.
- Console output: `printState`, the marker lines, the option list and the final banner (index.js:316-320, 323-324, 330, 333-336, 364-368).
- `Token.toString`, `Token.position` and `Group.toString` (index.js:43-51, 140-144). Error values carry the data; the message wording is not modelled.
- `process.exit` in `showErrorAndExit` (index.js:10-13). Each fatal error is an `Err`/`Aborted` value that ends the computation.
- The file name carried by every token. It is the same for every token of a run.
- The unused `LETTER_GROUP_DEFINITION` state (index.js:127). It has no table entry and no transition leads to it.
- JavaScript strings are UTF-16. The model's strings are sequences of Unicode characters, which agree for every character the tokenizer accepts. A comment may hold a character outside the Basic Multilingual Plane, which JavaScript stores as two code units. On the last line each such character adds 2 to `lines[lastLine].length` (index.js:115) but 1 to the model's line length. So the model counts the end-of-file column in Unicode characters, not UTF-16 code units.
- Engine.Run: requires at least one rule. With none, the source fails on `groups[0].outputs` with a JavaScript TypeError. A parsed stream that ends in end-of-file always has at least one rule (Parser.ParseSound), and Pipeline.Process relies on that.
- Parser.Transition: requires the reachable-state invariant. The source can throw a TypeError only from a context no token sequence reaches, such as an undefined `currentGroup` in the output states. The model does not represent those contexts.
- Engine.Loop: at most `fuel` passes. A derivation that runs forever in the source (`A => A`) shows up as `Unfinished` for every fuel.
