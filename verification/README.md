# Phosphaze core in Dafny

This project models the deterministic core of Phosphaze, a bullet-hell rhythm game, and proves properties about it. It covers five parts.

- **The DML front end.** DML is the game's bullet-script language. The model covers:
  - the tokenizer and the token classifiers;
  - the parser cursor;
  - the shunting-yard expression builder;
  - the lowering of a `Range` statement to labelled jumps;
  - label resolution;
  - the instruction loop of a code block;
  - the name binding and option factories of DML objects.
- **Timestamps and the timeline.** These decide when the code of a timeline entry runs.
- **The bullet system.** It keeps the number of bullets on screen under a cap.
- **Small state machines:**
  - the animation cursor;
  - the guarded option setters;
  - two container helpers.
- **The inline integer arithmetic of `libwav.h`:**
  - the stereo sample cursor and sample average;
  - `Wave::hasNext`, `reset` and `isExtendedWave`;
  - the beat detector's length;
  - `FFTransform::hasNext`.

How the C# and C++ semantics are modelled:

- **Exceptions.** Every C# exception the code can raise is a `Throw` of a `Result` (module `Exceptions`). A null reference is an `Option` or a distinguished value.
- **Times.** The model restricts timestamp times, starts, ends and intervals, and the timeline's time, to whole milliseconds (`DmlTimestamps.Time` and the `int` fields of `Timestamp`). In the C# code they are `double` values that `Double.Parse` reads from number tokens, so they can be fractional. Only the frame length `deltaTime` is whole in the C# code as well: it is the elapsed game time's `Milliseconds`.
- **Floating point.** The `double` value of a number object and the `float` game options are reals, with no rounding. The timestamp and timeline times above are the only `double` values the model keeps as integers.
- **C++ integer widths.** The unsigned 64-bit wrap-around, the conversion to 32-bit `int` and truncating division are written out: `LibWav.U64`, `LibWav.ToInt32`, `LibWav.TruncDiv`.
- **Impure inputs are parameters.** This covers the frame length `deltaTime`, a bullet's own update, the globals the system's global code assigns, the effect of the code the timeline runs, and the random loop label of a `Range` statement.

One module per source file:

| module | file |
|---|---|
| `Exceptions` | the exceptions thrown by the code |
| `DmlObjects` | Dml/Parse/DmlObject.cs, DmlType.cs, DmlFunction.cs |
| `BuiltinsDict` | Dml/Parse/BuiltinsDict.cs, BehavioursDict.cs |
| `DmlTokens` | Dml/Parse/DmlTokens.cs |
| `Tokenizer` | Dml/Parse/Tokenizer.cs |
| `ParserCursor` | Dml/Parse/AbstractParser.cs |
| `Instructions` | Dml/Parse/Instruction.cs and Instructions/ |
| `ShuntingYard` | the operator tables and stack discipline of ExpressionBuilder.cs |
| `ExpressionBuilder` | Dml/Parse/ExpressionBuilder.cs |
| `InstructionCleaner` | Dml/Parse/InstructionCleaner.cs |
| `CodeBlocks` | Dml/Parse/CodeBlock.cs and the jump, label, load and assign instructions |
| `DmlParser` | Dml/Parse/DmlParser.cs |
| `DmlTimestamps` | Dml/DmlTimestamp.cs |
| `DmlTimelines` | Dml/DmlTimeline.cs |
| `DmlSystems` | Dml/DmlSystem.cs |
| `AnimationStates` | Animation/AnimationState.cs |
| `GameOptions` | Options.cs |
| `ContainerExtensions` | Utils/ContainerExtensions.cs |
| `LibWav` | libwav/libwav.h |
| `Arithmetic` | helper lemmas on Euclidean division |

## Model

| member | source | states |
|---|---|---|
| DmlObjects.StripQuotes | Phosphaze/Core/Dml/Parse/DmlObject.cs:36-39 | the name loses at most one quote at each end; it fails with IndexOutOfRange exactly on the empty name and on a lone quote |
| DmlObjects.QuotedNameRoundTrip | Phosphaze/Core/Dml/Parse/DmlObject.cs:36-39 | binding `"s"` binds `s`: stripping undoes quoting |
| DmlObjects.UnquotedNameUnchanged | Phosphaze/Core/Dml/Parse/DmlObject.cs:36-39 | a name with no quote at either end is bound as it is |
| DmlObjects.SetVar | Phosphaze/Core/Dml/Parse/DmlObject.cs:34-41 | succeeds exactly when stripping does; the stripped name is bound to the object, overwriting, and every other binding is kept |
| DmlObjects.ArgCountCheckMeansCompleteBinding | Phosphaze/Core/Dml/Parse/DmlObject.cs:52-88 | with distinct parameters and enough values on the stack, the argument-count check holds exactly when the corrected factory succeeds and binds every parameter; more arguments than parameters make the factory throw IndexOutOfRange |
| DmlObjects.CompatibleWithArgTypes | Phosphaze/Core/Dml/Parse/DmlObject.cs:57-65 | true iff the given types equal the factory's types: same length, element by element |
| DmlObjects.CallOptionFactoryAsWrittenReverses | Phosphaze/Core/Dml/Parse/DmlObject.cs:78-88 | as written, with one argument per distinct parameter, the factory succeeds, pops exactly the arguments and binds the j-th parameter to the j-th argument counted from the last: the binding order is reversed |
| DmlObjects.BindPoppedAsWrittenBindsReversed | Phosphaze/Core/Dml/Parse/DmlObject.cs:82-86 | the as-written pop loop binds parameter k to the k-th value popped, the last argument first, and leaves the stack below the arguments |
| DmlObjects.OptionArgumentsReversedAsWritten | Phosphaze/Core/Dml/Parse/DmlObject.cs:82-86 | as written, a call with arguments (0, 10) binds 10 to the first parameter and 0 to the second |
| DmlObjects.CallOptionFactory | Phosphaze/Core/Dml/Parse/DmlObject.cs:78-88 | the corrected factory yields an option object |
| DmlObjects.BindPoppedBindsInOrder | Phosphaze/Core/Dml/Parse/DmlObject.cs:82-86 | popping one argument per parameter binds the k-th parameter to the argument written k-th and pops exactly those arguments |
| DmlObjects.BindPoppedKeys | Phosphaze/Core/Dml/Parse/DmlObject.cs:82-86 | the corrected pop loop succeeds whenever the stack holds the values it pops, and binds exactly the keys it was given plus the first argCount parameters |
| DmlObjects.CallOptionFactoryBindsArguments | Phosphaze/Core/Dml/Parse/DmlObject.cs:78-88 | with distinct parameters and one argument each, the corrected factory binds each parameter to the argument in its position and leaves the rest of the stack |
| DmlTokens.SingleCharTokenInList | Phosphaze/Core/Dml/Parse/DmlTokens.cs:345-380 | the character test agrees with membership of the one-character string in SINGLE_CHAR_TOKENS |
| DmlTokens.OperatorListsByLength | Phosphaze/Core/Dml/Parse/DmlTokens.cs:345-399 | SINGLE_CHAR_TOKENS holds the one-character tokens and every two-character one; TRIPLE_CHAR_TOKENS holds only `...` |
| DmlTokens.IsOperatorMatchesLists | Phosphaze/Core/Dml/Parse/DmlTokens.cs:426-431 | `IsOperator` holds iff the string is in one of the three token lists |
| DmlTokens.PatternEnd | Phosphaze/Core/Dml/Parse/DmlTokens.cs:184 | the place a match of an unanchored `...$` pattern must end is one where .NET's `$` matches |
| DmlTokens.NumberTextEndsInDigit | Phosphaze/Core/Dml/Parse/DmlTokens.cs:184 | every text the NUMBER pattern matches in full ends in a digit |
| DmlTokens.IsNumberMatchesPattern | Phosphaze/Core/Dml/Parse/DmlTokens.cs:438-441 | the number check holds iff the regular expression NUMBER matches somewhere, ending where `$` matches |
| DmlTokens.NameEndsAtText | Phosphaze/Core/Dml/Parse/DmlTokens.cs:190 | a name ends at a position iff some substring ending there is name text |
| DmlTokens.UqNameMatchesPattern | Phosphaze/Core/Dml/Parse/DmlTokens.cs:448-450 | the name check holds iff the regular expression UQNAME matches, ending where `$` matches |
| DmlTokens.NumberPatternIsUnanchored | Phosphaze/Core/Dml/Parse/DmlTokens.cs:184 | with no start anchor, any text ending in a digit is a number |
| Tokenizer.ScannedLiteralsAreStrings | Phosphaze/Core/Dml/Parse/DmlTokens.cs:539-545 | every token of the corrected scan that starts with a quote passes `IsString`, except a last token whose literal is still open |
| Tokenizer.UnclosedQuoteIsString | Phosphaze/Core/Dml/Parse/DmlTokens.cs:539-545 | a lone quote scans to an open literal `"`, and `IsString` accepts it because its first and last characters are the same quote |
| ExpressionBuilder.StringEvent | Phosphaze/Core/Dml/Parse/ExpressionBuilder.cs:245-246 | a token with a quote at both ends is loaded as a string constant, quotes included |
| ParserCursor.GetUntilPastTheEnd | Phosphaze/Core/Dml/Parse/AbstractParser.cs:223-251 | when no terminal stops the loop before the end, it tests the null node: a pattern terminal (UQNAME, BUILTIN, NUMBER) throws ArgumentNull, any other terminal ends in a NullReference |
| ExpressionBuilder.GlobalAtTheEnd | Phosphaze/Core/Dml/Parse/ExpressionBuilder.cs:114-118 | an `@` that is the last token makes the name test read null, which throws ArgumentNull |
| DmlParser.RangeAtTheEnd | Phosphaze/Core/Dml/Parse/DmlParser.cs:264-271 | a `Range` keyword that is the last token makes the loop-variable test read null, which throws ArgumentNull |
| DmlTokens.IsMatchAny | Phosphaze/Core/Dml/Parse/DmlTokens.cs:571-577 | true iff some token of the list matches |
| DmlTokens.BracketClasses | Phosphaze/Core/Dml/Parse/DmlTokens.cs:510-527 | the bracket classifiers are `IsMatch` against the four brackets of their kind, and no token is both |
| DmlTokens.ClassifiersSeparate | Phosphaze/Core/Dml/Parse/DmlTokens.cs:426-454 | numbers and names are never operators; a name is never a keyword or builtin |
| BuiltinsDict.BuiltinNamesAreCapitalised | Phosphaze/Core/Dml/Parse/BuiltinsDict.cs:16-149 | every name the builtin table holds starts with a capital letter |
| BuiltinsDict.LookupQuirks | Phosphaze/Core/Dml/Parse/BuiltinsDict.cs:19-21 | `ConsoleOutput`, `Vector` and `Array` read as impure through a function reference, because their `IsPure` hides the base property instead of overriding it (MiscFunctions.cs:28, 82, 145); the entries registered as null hold no object; `Sin` reads as pure |
| Tokenizer.CompressIsCompressed | Phosphaze/Core/Dml/Parse/Tokenizer.cs:149-175 | outside strings, compressed text has no carriage return, no tab and no space right after a space |
| Tokenizer.CompressedIsFixpoint | Phosphaze/Core/Dml/Parse/Tokenizer.cs:149-175 | text already in that shape comes out of compression unchanged |
| Tokenizer.CompressBlankRun | Phosphaze/Core/Dml/Parse/Tokenizer.cs:149-175 | outside strings, a run of blanks that starts with a space or tab and ends before a non-blank becomes exactly one space, or nothing right after a space |
| Tokenizer.CompressCopiesLiteral | Phosphaze/Core/Dml/Parse/Tokenizer.cs:149-175 | a string literal is copied verbatim, blanks included |
| Tokenizer.CompressThenUnspaced | Phosphaze/Core/Dml/Parse/Tokenizer.cs:149-175 | compressing and then dropping the spaces outside strings gives the text without its blanks outside strings |
| Tokenizer.CompressWhitespaceIdempotent | Phosphaze/Core/Dml/Parse/Tokenizer.cs:144-177 | compressing twice gives the same text as compressing once |
| Tokenizer.CompressKeepsNonBlank | Phosphaze/Core/Dml/Parse/Tokenizer.cs:152-174 | compression drops or rewrites only spaces, tabs and carriage returns: every other character is kept, in order |
| Tokenizer.CompressKeepsEqualCount | Phosphaze/Core/Dml/Parse/Tokenizer.cs:152-174 | compression keeps every `=` |
| Tokenizer.NonEmptyAppend | Phosphaze/Core/Dml/Parse/Tokenizer.cs:132-134 | the filter drops a single token exactly when it is empty and distributes over concatenation, so it is the order-preserving filter of the non-empty tokens, duplicates included |
| Tokenizer.NonEmptyKeepsText | Phosphaze/Core/Dml/Parse/Tokenizer.cs:132-134 | dropping the empty tokens keeps the text the tokens spell |
| Tokenizer.StringStep | Phosphaze/Core/Dml/Parse/Tokenizer.cs:31-42 | inside a string each character is appended to the current token, and a quote closes the string and starts a new token |
| Tokenizer.QuoteOpensString | Phosphaze/Core/Dml/Parse/Tokenizer.cs:96-101 | outside a string a quote starts a token and opens a string |
| Tokenizer.InsideString | Phosphaze/Core/Dml/Parse/Tokenizer.cs:31-42 | a string body without quotes, then a quote, is appended to the current token verbatim |
| Tokenizer.StringLiteralIsOneToken | Phosphaze/Core/Dml/Parse/Tokenizer.cs:31-42 | a quoted literal with no inner quote becomes one token, quotes included |
| Tokenizer.DotStartsToken | Phosphaze/Core/Dml/Parse/Tokenizer.cs:88-106 | a `.` that does not complete `...` becomes a token of its own |
| Tokenizer.DotCompletesEllipsis | Phosphaze/Core/Dml/Parse/Tokenizer.cs:74-86 | a `.` after two `.` tokens replaces them with one `...` token |
| Tokenizer.EllipsisIsOneToken | Phosphaze/Core/Dml/Parse/Tokenizer.cs:74-86 | three consecutive dots become the single token `...` |
| Tokenizer.EqualJoinsComparison | Phosphaze/Core/Dml/Parse/Tokenizer.cs:50-58 | an `=` after a one-character `<`, `>`, `=` or `!` token joins it, in both the as-written and the corrected step |
| Tokenizer.OrdinaryStep | Phosphaze/Core/Dml/Parse/Tokenizer.cs:126-128 | a character that is no single-character token and no space extends the current token |
| Tokenizer.SpaceStep | Phosphaze/Core/Dml/Parse/Tokenizer.cs:121-125 | a space outside strings ends the current token |
| Tokenizer.EqualStartsToken | Phosphaze/Core/Dml/Parse/Tokenizer.cs:50-58 | corrected: an `=` that cannot join the token before it starts a token of its own |
| Tokenizer.EqualDroppedAsWritten | Phosphaze/Core/Dml/Parse/Tokenizer.cs:50-58 | as written, an `=` after any other one-character token leaves the scan unchanged: the `=` is lost |
| Tokenizer.StepKeepsEquals | Phosphaze/Core/Dml/Parse/Tokenizer.cs:47-128 | the corrected step holds one more `=` in its tokens exactly when it reads an `=` |
| Tokenizer.ScanAllKeepsEquals | Phosphaze/Core/Dml/Parse/Tokenizer.cs:26-129 | the corrected scan's tokens hold every `=` of the text scanned |
| Tokenizer.ScanKeepsEveryEqual | Phosphaze/Core/Dml/Parse/Tokenizer.cs:16-129 | the corrected scan of the compressed input holds exactly as many `=` as the input |
| Tokenizer.ScanEqualityAsWritten | Phosphaze/Core/Dml/Parse/Tokenizer.cs:47-58 | as written, scanning `i == 2` gives the tokens `i`, `` and `2` |
| Tokenizer.EqualityDroppedAsWritten | Phosphaze/Core/Dml/Parse/Tokenizer.cs:50-58 | as written, `i == 2` tokenizes to `i`, `2`: the comparison vanishes |
| Tokenizer.ScanEquality | Phosphaze/Core/Dml/Parse/Tokenizer.cs:47-58 | corrected, scanning `i == 2` gives `i`, `==`, `` and `2` |
| Tokenizer.EqualityKept | Phosphaze/Core/Dml/Parse/Tokenizer.cs:50-58 | corrected, `i == 2` tokenizes to `i`, `==`, `2` |
| Tokenizer.PairingAcrossTokenAsWritten | Phosphaze/Core/Dml/Parse/Tokenizer.cs:50-58 | as written, `a<b=1` scans to `a`, `<=`, `b1`: the `=` joins the `<` across the token `b`, and the tokens no longer spell the text |
| Tokenizer.PairingFromEmptyToken | Phosphaze/Core/Dml/Parse/Tokenizer.cs:50-58 | corrected, an `=` pairs only when the current token is empty, so `a<b=1` scans to `a`, `<`, `b`, `=`, `1` |
| Tokenizer.NextNewline | Phosphaze/Core/Dml/Parse/Tokenizer.cs:195-196 | the index of the first newline token from a position, or none when there is no newline after it |
| Tokenizer.SecondPassFrom | Phosphaze/Core/Dml/Parse/Tokenizer.cs:182-238 | the second pass never outputs more tokens than it reads |
| Tokenizer.CommentSkipsToNewline | Phosphaze/Core/Dml/Parse/Tokenizer.cs:193-198 | a comment is replaced by the newline that ends it; with no newline after it the pass reads past the end and throws IndexOutOfRange |
| Tokenizer.MinusAfterOperatorIsUnary | Phosphaze/Core/Dml/Parse/Tokenizer.cs:200-220 | a `-` right after an operator other than `)` becomes `u-` |
| Tokenizer.MinusAfterOperandIsBinary | Phosphaze/Core/Dml/Parse/Tokenizer.cs:200-234 | a `-` after an operand or `)` stays binary |
| Tokenizer.DecimalIsFolded | Phosphaze/Core/Dml/Parse/Tokenizer.cs:223-230 | a number, `.` and a number fold into one decimal token |
| Tokenizer.SecondPassOutput | Phosphaze/Core/Dml/Parse/Tokenizer.cs:189-235 | on non-empty tokens the second pass outputs no `#` and no empty token |
| Tokenizer.SecondPassKeepsText | Phosphaze/Core/Dml/Parse/Tokenizer.cs:182-238 | whatever the second pass outputs, its tokens with the unary marks taken off spell the input tokens with their comments removed: it only marks minus signs, folds decimals and drops comments |
| Tokenizer.DecimalKeepsText | Phosphaze/Core/Dml/Parse/Tokenizer.cs:223-230 | folding a number, `.` and a number into one token keeps the text they spell |
| Tokenizer.TokenizeAsWritten | Phosphaze/Core/Dml/Parse/Tokenizer.cs:16-142 | the tokenizer as written never returns an empty token or a `#` |
| Tokenizer.Tokenize | Phosphaze/Core/Dml/Parse/Tokenizer.cs:16-142 | the corrected tokenizer returns no empty token and no `#`; on input without `#` its tokens, unary marks taken off, spell the input without its blanks outside string literals |
| Tokenizer.ScanKeepsText | Phosphaze/Core/Dml/Parse/Tokenizer.cs:26-129 | the corrected scan keeps its invariant, and its tokens spell the text scanned without the spaces outside string literals |
| Tokenizer.TokenizeKeepsText | Phosphaze/Core/Dml/Parse/Tokenizer.cs:16-142 | the tokens handed to the second pass spell the input without its blanks outside string literals; the second pass keeps that text apart from comments, so without `#` the output spells it too |
| ParserCursor.New | Phosphaze/Core/Dml/Parse/AbstractParser.cs:72-77 | the cursor starts on the first token with the given line, nothing expected and nothing to skip; it is done at once iff there are no tokens |
| ParserCursor.CurrentToken | Phosphaze/Core/Dml/Parse/AbstractParser.cs:28 | the token under the cursor, null exactly when the cursor is done |
| ParserCursor.NextToken | Phosphaze/Core/Dml/Parse/AbstractParser.cs:33 | the token after the cursor, null when there is none |
| ParserCursor.HasNext | Phosphaze/Core/Dml/Parse/AbstractParser.cs:120-123 | true whenever the cursor is on a token, whatever `notNull` says; on the null node with `notNull` it dereferences null |
| ParserCursor.AdvanceStep | Phosphaze/Core/Dml/Parse/AbstractParser.cs:149-160 | one step moves one or two tokens forward, and the line counter grows by the newlines passed over |
| ParserCursor.AdvanceLoop | Phosphaze/Core/Dml/Parse/AbstractParser.cs:147-161 | the loop never moves backwards, and when it ends with the counter at -1 it has made every step |
| ParserCursor.Advance | Phosphaze/Core/Dml/Parse/AbstractParser.cs:144-170 | a successful strict advance moves at least the number of steps asked for; a strict advance by a negative count throws |
| ParserCursor.Next | Phosphaze/Core/Dml/Parse/AbstractParser.cs:144-170 | the default `Advance()`: from the null node it dereferences null; otherwise it moves one or two tokens |
| ParserCursor.NextIsAdvance | Phosphaze/Core/Dml/Parse/AbstractParser.cs:144-170 | a strict one-step advance never throws the exception it is given: it is the default step |
| ParserCursor.AdvanceWithoutNewlines | Phosphaze/Core/Dml/Parse/AbstractParser.cs:144-170 | with no newline ahead and nothing expected, advancing k tokens lands k tokens on when they exist; otherwise `notNull` dereferences null, a strict advance throws its exception, and a lenient one stops past the end |
| ParserCursor.AdvanceLoopWithoutNewlines | Phosphaze/Core/Dml/Parse/AbstractParser.cs:147-161 | the same for the loop alone, with the count of steps left over |
| ParserCursor.AdvanceSkipsNewline | Phosphaze/Core/Dml/Parse/AbstractParser.cs:150-154 | a step onto a newline that has a token after it moves over both and counts one line |
| ParserCursor.AdvanceChecksExpected | Phosphaze/Core/Dml/Parse/AbstractParser.cs:155-160 | each step pops the top expected token and throws UnexpectedToken when the new current token does not match it |
| ParserCursor.AdvanceStepChecks | Phosphaze/Core/Dml/Parse/AbstractParser.cs:149-160 | one step onto a token other than a newline is accepted iff it matches the top expected token, which it pops |
| ParserCursor.SetExpecting | Phosphaze/Core/Dml/Parse/AbstractParser.cs:177-181 | setting expectations leaves the position, line, tokens and skip count alone, and sets the expected tokens to the list given |
| ParserCursor.ExpectationsCheckedInOrder | Phosphaze/Core/Dml/Parse/AbstractParser.cs:155-160 | advancing over as many tokens as are expected succeeds iff each token matches the expectation in its place, first expected first, and leaves nothing expected |
| ParserCursor.Restart | Phosphaze/Core/Dml/Parse/AbstractParser.cs:197 | back to the first token; the line counter is not reset |
| ParserCursor.ReverseLoop | Phosphaze/Core/Dml/Parse/AbstractParser.cs:100-109 | the loop never moves forward and leaves the expectations alone |
| ParserCursor.Reverse | Phosphaze/Core/Dml/Parse/AbstractParser.cs:91-118 | reversing keeps the tokens and expectations; a strict reverse by a negative count from a token throws |
| ParserCursor.ReverseWithoutNewlines | Phosphaze/Core/Dml/Parse/AbstractParser.cs:91-118 | with no newline behind, reversing k tokens lands k tokens back when possible; otherwise a strict reverse throws its exception and a lenient one stops on the first token |
| ParserCursor.ReverseLoopWithoutNewlines | Phosphaze/Core/Dml/Parse/AbstractParser.cs:100-109 | the same for the loop alone, with the count of steps left over |
| ParserCursor.AdvanceThenReverse | Phosphaze/Core/Dml/Parse/AbstractParser.cs:91-170 | one step forward then one step back returns to the same token and line, unless the step passes a final newline |
| ParserCursor.TrailingNewlineBreaksRoundTrip | Phosphaze/Core/Dml/Parse/AbstractParser.cs:94-98 | a step forward over a final newline, then one step back, stops on the newline with the line still counted |
| ParserCursor.BracketDepthSnoc | Phosphaze/Core/Dml/Parse/AbstractParser.cs:236-242 | one more token moves the bracket depth by one up for an opening bracket and one down for a closing one |
| ParserCursor.GetUntilStep | Phosphaze/Core/Dml/Parse/AbstractParser.cs:234-244 | a token that does not stop the loop is taken, the depth follows its bracket, and the loop goes on from the next token |
| ParserCursor.GetUntilStop | Phosphaze/Core/Dml/Parse/AbstractParser.cs:232-245 | the loop stops on a terminal outside brackets, and throws when it passes the last token |
| ParserCursor.GetUntilLoopEnds | Phosphaze/Core/Dml/Parse/AbstractParser.cs:232-245 | when the loop succeeds the cursor stands on a terminal at depth 0 |
| ParserCursor.GetUntilLoopBalances | Phosphaze/Core/Dml/Parse/AbstractParser.cs:229-245 | the tokens read balance their brackets, and none of them is a terminal outside brackets |
| ParserCursor.GetUntilTakesTheSlice | Phosphaze/Core/Dml/Parse/AbstractParser.cs:231-245 | with no newline ahead and nothing expected, the tokens returned are exactly those between the start and the terminal |
| ParserCursor.GetUntil | Phosphaze/Core/Dml/Parse/AbstractParser.cs:223-251 | the tokens before the first terminal outside brackets, excluding it; `reposition` restores the position; with `ignoreBracketDepth` it can only throw |
| ParserCursor.GetUntilFinds | Phosphaze/Core/Dml/Parse/AbstractParser.cs:223-251 | with a terminal at bracket depth 0 at index k and none before it, `GetUntil` returns the tokens from the cursor up to k and leaves the cursor on k, or where it was with `reposition` |
| ParserCursor.GetUntilLoopFinds | Phosphaze/Core/Dml/Parse/AbstractParser.cs:229-245 | the loop, from any depth and tokens already taken, reads up to the first stopping terminal and appends exactly the tokens before it |
| ParserCursor.GetUntilWithoutTerminalThrows | Phosphaze/Core/Dml/Parse/AbstractParser.cs:232-245 | without a terminal ahead the loop runs off the end and throws |
| ParserCursor.NeverClosesSnoc | Phosphaze/Core/Dml/Parse/AbstractParser.cs:280-287 | reading one more token moves the block depth by its angle bracket and keeps every prefix at depth 0 or more |
| ParserCursor.NamespaceLoop | Phosphaze/Core/Dml/Parse/AbstractParser.cs:278-297 | when the loop succeeds it stands on the `>` that closes the block, and the tokens read open and close blocks in balance without closing more than they opened |
| ParserCursor.GetNamespaceBlock | Phosphaze/Core/Dml/Parse/AbstractParser.cs:264-303 | throws ParserError unless the cursor is on `<`; otherwise returns the balanced tokens inside the matching `>`, and `reposition` restores the position |
| ParserCursor.NamespaceLoopSlice | Phosphaze/Core/Dml/Parse/AbstractParser.cs:278-297 | when a `>` at index k brings the depth to 0 and the depth never drops below 1 before it, the loop returns the tokens from the cursor up to k and stands on k |
| ParserCursor.NamespaceLoopRunsOut | Phosphaze/Core/Dml/Parse/AbstractParser.cs:278-297 | when no `>` closes the namespace, the loop throws the given exception, or the mismatched-delimiters error when none is given |
| ParserCursor.GetNamespaceBlockFinds | Phosphaze/Core/Dml/Parse/AbstractParser.cs:264-303 | on `<` with a matching `>` at index k, the block is the tokens strictly between the delimiters, and the cursor ends on k, or where it was with `reposition` |
| ParserCursor.GetNamespaceBlockUnclosed | Phosphaze/Core/Dml/Parse/AbstractParser.cs:264-303 | on an unclosed `<`: as the last token it throws NullReference; otherwise the given exception, or the mismatched-delimiters error |
| ParserCursor.ParseNextPrelude | Phosphaze/Core/Dml/Parse/AbstractParser.cs:319-338 | `ProcessNext` runs iff the cursor is still on a token; the top expected token is popped and matched against it |
| ParserCursor.EpilogueProgresses | Phosphaze/Core/Dml/Parse/AbstractParser.cs:342 | with nothing expected the closing step never throws and moves forward from a token, so `Parse` ends |
| ShuntingYard.OperatorTokensRoundTrip | Phosphaze/Core/Dml/Parse/ExpressionBuilder.cs:82-101 | operator tokens and instructions correspond one to one: each operation's token maps back to it |
| ShuntingYard.AssociativityIsConsistent | Phosphaze/Core/Dml/Parse/ExpressionBuilder.cs:36-80 | every operator is in exactly one associativity list, and operators of equal precedence share their associativity |
| ShuntingYard.ShouldPopIsTheTextbookRule | Phosphaze/Core/Dml/Parse/ExpressionBuilder.cs:221-229 | the loop's test on the stack top's associativity pops exactly what the textbook rule pops: tighter operators, and equal ones when the incoming operator is left associative |
| ShuntingYard.EmittedInOrder | Phosphaze/Core/Dml/Parse/ExpressionBuilder.cs:208 | popping operators emits their instructions in the order popped |
| ShuntingYard.PopWhileEmitsThePopped | Phosphaze/Core/Dml/Parse/ExpressionBuilder.cs:221-229 | the operator loop emits the popped run of stack entries, top first, and leaves the rest |
| ShuntingYard.PopWhileStopsAtTheFirstKeeper | Phosphaze/Core/Dml/Parse/ExpressionBuilder.cs:221-229 | it pops each entry that passes the test and stops at the first that fails |
| ShuntingYard.PopWhilePopsTheRun | Phosphaze/Core/Dml/Parse/ExpressionBuilder.cs:221-229 | the two together: the popped prefix all passes the test, the next entry fails it, and their instructions are appended |
| ShuntingYard.FirstParen | Phosphaze/Core/Dml/Parse/ExpressionBuilder.cs:200-209 | the position of the topmost `(` on the stack |
| ShuntingYard.PopToParenEmitsTheGroup | Phosphaze/Core/Dml/Parse/ExpressionBuilder.cs:200-209 | `)` emits every operator above the topmost `(`, top first, and discards the `(` |
| ShuntingYard.StepOnClose | Phosphaze/Core/Dml/Parse/ExpressionBuilder.cs:193-210 | `)` throws MismatchedParentheses iff no `(` is on the stack; otherwise it emits the group down to it |
| ShuntingYard.StepOnOperator | Phosphaze/Core/Dml/Parse/ExpressionBuilder.cs:212-231 | an operator pops and emits the run that should go before it, then is pushed |
| ShuntingYard.PostParse | Phosphaze/Core/Dml/Parse/ExpressionBuilder.cs:254-261 | the remaining operators are appended top first; a `(` left on the stack has no instruction, so it throws KeyNotFound |
| ShuntingYard.StepKeepsOperandOrder | Phosphaze/Core/Dml/Parse/ExpressionBuilder.cs:158-231 | each token adds its own operand loads after those already emitted, and operators add none |
| ShuntingYard.RunKeepsOperandOrder | Phosphaze/Core/Dml/Parse/ExpressionBuilder.cs:105-252 | over a whole expression the operands are loaded in input order |
| ShuntingYard.PostParseAddsNoOperand | Phosphaze/Core/Dml/Parse/ExpressionBuilder.cs:254-261 | the final flush adds no operand load |
| ShuntingYard.ProductBindsTighter | Phosphaze/Core/Dml/Parse/ExpressionBuilder.cs:72-74 | `x + y * z` compiles to `x y z * +` |
| ShuntingYard.DifferenceGroupsLeft | Phosphaze/Core/Dml/Parse/ExpressionBuilder.cs:224 | `x - y - z` compiles to `x y - z -` |
| ShuntingYard.PowerGroupsRight | Phosphaze/Core/Dml/Parse/ExpressionBuilder.cs:225 | `x ^ y ^ z` compiles to `x y z ^ ^` |
| ExpressionBuilder.NewlineIsNoName | Phosphaze/Core/Dml/Parse/ExpressionBuilder.cs:107 | a newline token is neither a name nor a builtin, so the name branch never starts on one |
| ExpressionBuilder.Power10 | Phosphaze/Core/Dml/Parse/ExpressionBuilder.cs:234-235 | the scale of a decimal fraction is positive |
| ExpressionBuilder.DotIndex | Phosphaze/Core/Dml/Parse/ExpressionBuilder.cs:234-235 | the index of the first point of a number token, every character before it being no point |
| ExpressionBuilder.DecimalValue | Phosphaze/Core/Dml/Parse/ExpressionBuilder.cs:234-235 | a number without a fraction has the value of its digits |
| ExpressionBuilder.ParseNumberReadsDigits | Phosphaze/Core/Dml/Parse/ExpressionBuilder.cs:234-235 | a run of digits parses to the integer it spells |
| ExpressionBuilder.DigitsHaveNoDot | Phosphaze/Core/Dml/Parse/ExpressionBuilder.cs:234-235 | a run of digits has no point |
| ExpressionBuilder.ParseNumberReadsFractions | Phosphaze/Core/Dml/Parse/ExpressionBuilder.cs:234-235 | `2.5` reads as 2.5, `2.` as 2 and `.5` as 0.5, as `Double.Parse` does; a lone `.` is a format error |
| ExpressionBuilder.GlobalNameLoad | Phosphaze/Core/Dml/Parse/ExpressionBuilder.cs:114-120 | after `@`: at the end the name test reads null and throws ArgumentNull; a name after it is loaded as a global; anything else is an invalid name |
| ExpressionBuilder.PlainNameLoad | Phosphaze/Core/Dml/Parse/ExpressionBuilder.cs:158-159 | a plain name is loaded as a local |
| ExpressionBuilder.BuiltinNameLoad | Phosphaze/Core/Dml/Parse/ExpressionBuilder.cs:160-161 | a builtin name loads the object the builtin table holds for it |
| ExpressionBuilder.StepBackLandsNoEarlier | Phosphaze/Core/Dml/Parse/ExpressionBuilder.cs:163-179 | peeking past a name and stepping back never lands before the name |
| ExpressionBuilder.StepBackOntoToken | Phosphaze/Core/Dml/Parse/AbstractParser.cs:91-118 | stepping back one from a token that follows a non-newline lands on that token: the look-ahead of a name is undone exactly |
| ExpressionBuilder.CollectArgumentsJoins | Phosphaze/Core/Dml/Parse/ExpressionBuilder.cs:320-340 | a read that succeeds stops on the `)` that closes the call, and the arguments it returns, joined by commas, are exactly the tokens between the parentheses (an empty last argument after a final comma is dropped) |
| ExpressionBuilder.CallOrLoadByNextToken | Phosphaze/Core/Dml/Parse/ExpressionBuilder.cs:163-179 | a name followed by `(` is parsed as a call of the loaded object; otherwise, including at the end, the cursor stays on the name and the load alone is the operand |
| ExpressionBuilder.ParseFuncCall | Phosphaze/Core/Dml/Parse/ExpressionBuilder.cs:310-354 | a call is one operand whose code ends with the load of the function and then the call instruction |
| ExpressionBuilder.NamedEvent | Phosphaze/Core/Dml/Parse/ExpressionBuilder.cs:107-179 | on `@`, `$`, a non-keyword name or a builtin, the event is the name's load followed by the call-or-load decision, and a failing load throws its error |
| ExpressionBuilder.NameEvent | Phosphaze/Core/Dml/Parse/ExpressionBuilder.cs:158-179 | a plain name is a call of its local load when `(` follows, and otherwise the local load |
| ExpressionBuilder.BuiltinEvent | Phosphaze/Core/Dml/Parse/ExpressionBuilder.cs:160-179 | a builtin name is a call of its table entry when `(` follows, and otherwise that entry's load |
| ExpressionBuilder.GlobalEvent | Phosphaze/Core/Dml/Parse/ExpressionBuilder.cs:114-179 | `@name` is a call of the global load when `(` follows the name, and otherwise the global load with the cursor on the name |
| ExpressionBuilder.NumberEvent | Phosphaze/Core/Dml/Parse/ExpressionBuilder.cs:234-235 | a number token loads the number `ParseNumber` reads, or throws its error; a token of digits loads their decimal value |
| ExpressionBuilder.NumberTokenIsNothingElse | Phosphaze/Core/Dml/Parse/ExpressionBuilder.cs:107-235 | a number token reaches the number branch: it is no name, builtin, keyword, parenthesis or operator |
| ExpressionBuilder.OperatorEvent | Phosphaze/Core/Dml/Parse/ExpressionBuilder.cs:212-231 | an operator token is an operator event for the operation it names |
| ExpressionBuilder.CommaRejected | Phosphaze/Core/Dml/Parse/ExpressionBuilder.cs:250-251 | a comma inside an expression is rejected as an invalid token for the context |
| ExpressionBuilder.ProcessNext | Phosphaze/Core/Dml/Parse/ExpressionBuilder.cs:105-252 | applying the token's event to the builder keeps the cursor on the same tokens and never moves it back |
| ExpressionBuilder.EpilogueMoves | Phosphaze/Core/Dml/Parse/AbstractParser.cs:342 | the closing advance of each parse step moves the cursor on, so the parse loop ends |
| ExpressionBuilder.ParseLoopRuns | Phosphaze/Core/Dml/Parse/AbstractParser.cs:308-314 | a successful parse is the shunting-yard run over the events read from the tokens, which depend on the tokens alone |
| ExpressionBuilder.BuildExpressionKeepsOperandOrder | Phosphaze/Core/Dml/Parse/ExpressionBuilder.cs:105-261 | the compiled code of an expression holds the operands' code in the order of the tokens |
| InstructionCleaner.FindLabel | Phosphaze/Core/Dml/Parse/InstructionCleaner.cs:31-33 | the index of the first `Label` with the name, or -1 exactly when no instruction is that label |
| InstructionCleaner.FoldFrom | Phosphaze/Core/Dml/Parse/InstructionCleaner.cs:25-49 | the loop from index i outputs one instruction per input instruction from i on |
| InstructionCleaner.FoldLabels | Phosphaze/Core/Dml/Parse/InstructionCleaner.cs:17-21 | cleaning keeps the number of instructions |
| InstructionCleaner.FoldFromResolvesEach | Phosphaze/Core/Dml/Parse/InstructionCleaner.cs:25-49 | the instruction at each position is the input instruction there, resolved |
| InstructionCleaner.FoldLabelsResolvesJumps | Phosphaze/Core/Dml/Parse/InstructionCleaner.cs:23-50 | same length and order; non-jumps are copied unchanged; each jump keeps its kind and label and gets the index of the first label with its name, -1 if none |
| InstructionCleaner.FoldLabelsIdempotent | Phosphaze/Core/Dml/Parse/InstructionCleaner.cs:23-50 | cleaning cleaned code changes nothing |
| InstructionCleaner.SameLabelsSameIndex | Phosphaze/Core/Dml/Parse/InstructionCleaner.cs:31-33 | codes with labels of a name at the same positions find that label at the same index |
| CodeBlocks.Pop | Phosphaze/Core/Dml/Parse/Instructions/AssignLocal.cs:27 | `Stack.Pop` gives the top and the rest, which put together are the stack; an empty stack throws InvalidOperation |
| CodeBlocks.AsBool | Phosphaze/Core/Dml/Parse/Instructions/JumpIfFalse.cs:24 | the cast to bool succeeds exactly on boolean objects and gives their value |
| CodeBlocks.AsDouble | Phosphaze/Core/Dml/Parse/Instructions/JumpIfLessThanOrEqual.cs:23-24 | the cast to double succeeds exactly on numbers and the infinity builtin |
| CodeBlocks.Perform | Phosphaze/Core/Dml/Parse/Instructions/JumpIfLessThanOrEqual.cs:17-27 | `Label` changes nothing; `LoadLocal` pushes the bound object and throws KeyNotFound on an unbound name; `JumpIfFalse` pops a boolean and jumps iff it is false; `JumpIfLessThanOrEqual` pops second then first and jumps iff first <= second |
| CodeBlocks.AssignThenLoadRoundTrip | Phosphaze/Core/Dml/Parse/Instructions/LoadLocal.cs:18-25 | storing the stack top in a local and loading it again leaves the stack as it was, with the local bound |
| CodeBlocks.RunFrom | Phosphaze/Core/Dml/Parse/CodeBlock.cs:28-29 | when the loop ends, the position is at or past the last instruction |
| CodeBlocks.NonJumpKeepsPosition | Phosphaze/Core/Dml/Parse/CodeBlock.cs:28-29 | an instruction other than a jump leaves the position where the loop put it |
| CodeBlocks.RunWithoutJumpsIsSequential | Phosphaze/Core/Dml/Parse/CodeBlock.cs:28-29 | code without jumps performs each instruction from the current position once, in order, and fails exactly when one of them fails |
| CodeBlocks.MissingLabelFails | Phosphaze/Core/Dml/Parse/CodeBlock.cs:28-29 | a jump whose label was missing (position -1) that fires makes the next turn index the array at -1 and throw |
| CodeBlocks.Execute | Phosphaze/Core/Dml/Parse/CodeBlock.cs:34-45 | a run that reaches the end leaves the block with its position reset to 0 |
| CodeBlocks.Evaluate | Phosphaze/Core/Dml/Parse/CodeBlock.cs:20-32 | a run that reaches the end resets the position and returns the stack top, or null when the stack is empty |
| CodeBlocks.NewBlockResolves | Phosphaze/Core/Dml/Parse/CodeBlock.cs:14-18 | a new block starts at position 0, keeps the number of instructions, gives every jump the index of its label, and building a block from its own instructions changes nothing |
| CodeBlocks.EvaluateLoadsLast | Phosphaze/Core/Dml/Parse/CodeBlock.cs:20-32 | a block that loads two constants evaluates to the second |
| DmlParser.IsSimpleConstant | Phosphaze/Core/Dml/Parse/DmlParser.cs:29-61 | false when some instruction is outside the constant set (loads, calls, the six binary and two unary arithmetic operations); otherwise true exactly when every call reads a pure function, false at the first impure one, and the cast exception of the first call not preceded by a constant function load |
| DmlParser.CatchParserError | Phosphaze/Core/Dml/Parse/DmlParser.cs:279-283 | a ParserError becomes BadRangeStatement; success and every other exception pass through |
| DmlParser.IndexOf | Phosphaze/Core/Dml/Parse/DmlParser.cs:299 | the index of the first occurrence, or -1 exactly when the token is absent |
| DmlParser.SplitStepThrows | Phosphaze/Core/Dml/Parse/DmlParser.cs:299-303 | the end tokens are rejected exactly when they are empty or their first `\>` is the last token, and then with BadRangeStatement |
| DmlParser.SplitStepRejoins | Phosphaze/Core/Dml/Parse/DmlParser.cs:304-311 | with a `\>` the end has none and end, `\>` and a non-empty step rejoin into the tokens; without one the step is `1` |
| DmlParser.NextNeverThrowsParserError | Phosphaze/Core/Dml/Parse/AbstractParser.cs:144-170 | one strict advance never throws a ParserError |
| DmlParser.GetUntilStepNoParserError | Phosphaze/Core/Dml/Parse/AbstractParser.cs:223-251 | one step of the read either continues the read or throws something other than a ParserError |
| DmlParser.GetUntilLoopNeverThrowsParserError | Phosphaze/Core/Dml/Parse/AbstractParser.cs:223-251 | a read without an exception of its own never throws a ParserError |
| DmlParser.RangeCatchNeverFires | Phosphaze/Core/Dml/Parse/DmlParser.cs:279-296 | so the catch around each read of a Range header never changes its outcome |
| DmlParser.ProcessRange | Phosphaze/Core/Dml/Parse/DmlParser.cs:264-355 | a header that is read gives a loop variable that is a name and a valid cursor on the same tokens for the body |
| DmlParser.RangeReadsItsSlices | Phosphaze/Core/Dml/Parse/DmlParser.cs:264-355 | with the first `...` at depth 0 at index a and the first `<` after it at b, the header reads the name, compiles the tokens before a as the start, splits the tokens between a and b into end and step and compiles both, and leaves the cursor after the `<` |
| DmlParser.RangeHeaderReads | Phosphaze/Core/Dml/Parse/DmlParser.cs:264-288 | the header reads the loop variable and the start tokens up to the `...`, then reads the bounds from there |
| DmlParser.RangeBoundsReads | Phosphaze/Core/Dml/Parse/DmlParser.cs:288-355 | the bounds are the start compiled, the tokens up to the `<` split at `\>` into end and step, each compiled, with the cursor after the `<` |
| DmlParser.RangeBounds | Phosphaze/Core/Dml/Parse/DmlParser.cs:284-355 | a successful read keeps the loop variable and leaves the body cursor on the same tokens |
| DmlParser.RangeNeedsAName | Phosphaze/Core/Dml/Parse/DmlParser.cs:270-271 | a loop variable that is not a name throws BadRangeStatement |
| DmlParser.EndReadStopsAtTheBlock | Phosphaze/Core/Dml/Parse/DmlParser.cs:349-353 | a successful read up to `<` leaves the cursor on the `<`, so the advance over it always happens |
| DmlParser.RangeSetup | Phosphaze/Core/Dml/Parse/DmlParser.cs:218-227 | the setup holds the three expressions and one assignment after each |
| DmlParser.RangeLatch | Phosphaze/Core/Dml/Parse/DmlParser.cs:248-257 | the latch is seven instructions ending in the conditional jump |
| DmlParser.ComplexRange | Phosphaze/Core/Dml/Parse/DmlParser.cs:205-258 | the loop adds the setup, the label, the body and the latch: eleven instructions besides the expressions and the body |
| DmlParser.ComplexRangeJumpsToItsLabel | Phosphaze/Core/Dml/Parse/DmlParser.cs:229-257 | after cleaning, the closing jump targets the loop's own label, right after the setup, whenever the code before it holds no label of that name |
| DmlParser.SetupLabelsComeFromTheCode | Phosphaze/Core/Dml/Parse/DmlParser.cs:218-227 | a label in the setup is one of the expressions' own instructions |
| DmlParser.LabelFoundAt | Phosphaze/Core/Dml/Parse/InstructionCleaner.cs:31-33 | the first label of a name is found where the code before holds none |
| DmlParser.RangeLoopsWhileInRange | Phosphaze/Core/Dml/Parse/DmlParser.cs:254-257 | the closing jump pops end and variable and goes back to the label exactly when the variable is at most the end |
| DmlTimestamps.EveryInterval | Phosphaze/Core/Dml/DmlTimestamp.cs:151-152 | an interval timestamp built from its interval alone starts at 0, never ends, and with no frame length is active exactly on the multiples of the interval |
| DmlTimestamps.DuringEveryInterval | Phosphaze/Core/Dml/DmlTimestamp.cs:178-179 | a during-intervals timestamp built from its interval alone starts at 0, never ends, and is inactive before 0 |
| DmlTimestamps.ShiftByMultiple | Phosphaze/Core/Dml/DmlTimestamp.cs:162-166 | a whole number of periods does not change the remainder the activity test takes |
| DmlTimestamps.AddPeriod | Phosphaze/Core/Dml/DmlTimestamp.cs:162-166 | one period does not change the remainder the activity test takes |
| DmlTimestamps.PeriodicRepeats | Phosphaze/Core/Dml/DmlTimestamp.cs:146-196 | a periodic timestamp is active at a time exactly when it is active a whole number of periods later, until its end |
| DmlTimestamps.PeriodicActiveOnTheBeat | Phosphaze/Core/Dml/DmlTimestamp.cs:146-196 | a periodic timestamp is active on every beat from its start until its end |
| DmlTimestamps.ActiveInsideWindow | Phosphaze/Core/Dml/DmlTimestamp.cs:48-124 | every kind but Outside, and At whose frame outlasts its 50 ms, is active only between its start and its end |
| DmlTimestamps.OutsideActiveBeyondItsWindow | Phosphaze/Core/Dml/DmlTimestamp.cs:127-141 | Outside is active up to and at its start and after its end, and inactive strictly between |
| DmlTimelines.NewTimeline | Phosphaze/Core/Dml/DmlTimeline.cs:28-45 | a new timeline has nothing waiting or in play, has not begun and is at time 0 |
| DmlTimelines.InsertByStart | Phosphaze/Core/Dml/DmlTimeline.cs:50 | inserting by start adds exactly the one timestamp |
| DmlTimelines.InsertKeepsSorted | Phosphaze/Core/Dml/DmlTimeline.cs:50 | inserting by start keeps the list sorted by start |
| DmlTimelines.SortByStart | Phosphaze/Core/Dml/DmlTimeline.cs:50 | the sort by start is sorted and a permutation of its input |
| DmlTimelines.Begin | Phosphaze/Core/Dml/DmlTimeline.cs:47-51 | Begin marks the timeline begun and sorts the waiting timestamps by start without losing or adding any |
| DmlTimelines.AddTimestamp | Phosphaze/Core/Dml/DmlTimeline.cs:57-62 | a begun timeline throws TimelineError; otherwise the timestamp is appended and nothing else changes |
| DmlTimelines.Admit | Phosphaze/Core/Dml/DmlTimeline.cs:67-71 | the admitted timestamps are the longest started prefix of the waiting list, appended in order to those in play |
| DmlTimelines.Filter | Phosphaze/Core/Dml/DmlTimeline.cs:74-79 | the filtered list holds each element as often as the list when it passes, never otherwise |
| DmlTimelines.Update | Phosphaze/Core/Dml/DmlTimeline.cs:64-82 | the local time advances by the frame length, and what still waits is a suffix of the waiting list |
| DmlTimelines.UpdateAdmitsStartedPrefix | Phosphaze/Core/Dml/DmlTimeline.cs:67-71 | an update admits exactly the longest prefix of waiting timestamps that have started |
| DmlTimelines.UpdateRunsTheActive | Phosphaze/Core/Dml/DmlTimeline.cs:73-76 | the code that runs is that of the timestamps in play or admitted that are active at the local time |
| DmlTimelines.UpdateDropsTheEnded | Phosphaze/Core/Dml/DmlTimeline.cs:78-79 | what stays in play is the timestamps in play or admitted whose end is not before the local time |
| DmlTimelines.UpdateAdmitsEveryStarted | Phosphaze/Core/Dml/DmlTimeline.cs:47-71 | on a sorted list every started timestamp is admitted and what waits stays sorted and not yet started |
| DmlTimelines.SortedSuffix | Phosphaze/Core/Dml/DmlTimeline.cs:50 | a suffix of a sorted list is sorted and starts no earlier than its first element |
| DmlTimelines.UnsortedHoldsBack | Phosphaze/Core/Dml/DmlTimeline.cs:67-71 | unsorted, one later start holds back a started timestamp behind it, which does not run |
| DmlTimelines.ConsideredHaveStarted | Phosphaze/Core/Dml/DmlTimeline.cs:67-71 | when everything in play has started, everything an update considers has started |
| DmlTimelines.UpdateKeepsAllStarted | Phosphaze/Core/Dml/DmlTimeline.cs:64-82 | with a frame length of at least 0, everything in play stays started |
| DmlTimelines.OutsideRunsOnlyAtItsEdges | Phosphaze/Core/Dml/DmlTimeline.cs:73-79 | an Outside timestamp that runs is either at its start or past its end, and then leaves play in the same update |
| DmlTimelines.DroppedNeverActiveAgain | Phosphaze/Core/Dml/DmlTimeline.cs:78-79 | a timestamp that stays in its window and leaves play is never active again later |
| DmlSystems.NewSystem | Phosphaze/Core/Dml/DmlSystem.cs:59-67 | each bullet factory is a global of type BulletClass under its name, nothing else is global, and there are no bullets |
| DmlSystems.AddBullet | Phosphaze/Core/Dml/DmlSystem.cs:73-81 | at the cap a bullet is ignored; a running system queues it; otherwise it is on screen at once |
| DmlSystems.AddBulletKeepsCap | Phosphaze/Core/Dml/DmlSystem.cs:73-81 | adding a bullet never passes the cap, and at the cap adding again changes nothing on screen |
| DmlSystems.Begin | Phosphaze/Core/Dml/DmlSystem.cs:86-91 | the global code's assignments override the globals and every other binding is kept; the system and its timeline have begun, the waiting timestamps sorted as a permutation of those before, with the timestamps in play and the time unchanged; the bullets on screen and queued are unchanged |
| DmlSystems.BeginKeepsCap | Phosphaze/Core/Dml/DmlSystem.cs:86-91 | Begin keeps the bullet cap, and afterwards an added bullet is queued for the next frame instead of going on screen |
| DmlSystems.UpdateAll | Phosphaze/Core/Dml/DmlSystem.cs:101-102 | every bullet is updated in place, in order |
| DmlSystems.UpdateAllSplits | Phosphaze/Core/Dml/DmlSystem.cs:101-102 | the bullets update one after another: the run over a split list is the run over the first part followed by the run over the second, for the updated bullets and for the spawned ones |
| DmlSystems.UpdateOneBullet | Phosphaze/Core/Dml/DmlSystem.cs:101-102 | one bullet's run is its own update, so the spawned list is each bullet's spawns concatenated in bullet order |
| DmlSystems.Flush | Phosphaze/Core/Dml/DmlSystem.cs:105-110 | the queue joins the screen in order, as a prefix that stops only at the cap, and never takes the screen past it |
| DmlSystems.RemoveDead | Phosphaze/Core/Dml/DmlSystem.cs:115 | the bullets left are the live ones, each as often as before |
| DmlSystems.UpdateEffects | Phosphaze/Core/Dml/DmlSystem.cs:96-119 | before `Begin` nothing changes; afterwards the bullets are those of the cleared system (updated, queue joined up to the cap, dead removed), the queue holds exactly the bullets the timeline code spawns unless the screen is full, the globals are the old ones overwritten by the code's writes, and the timeline has taken one update |
| DmlSystems.Cleared | Phosphaze/Core/Dml/DmlSystem.cs:101-115 | the part of an update before the timeline runs empties the queue and keeps the globals, the timeline and the begun flag |
| DmlSystems.AddAllQueues | Phosphaze/Core/Dml/DmlSystem.cs:73-81 | on a running system, adding bullets one by one queues them all in order, unless the screen is full, when all are dropped |
| DmlSystems.Queue | Phosphaze/Core/Dml/DmlSystem.cs:73-81 | a frame that starts at the cap queues nothing new |
| DmlSystems.UpdateKeepsCap | Phosphaze/Core/Dml/DmlSystem.cs:96-119 | after a frame the cap still holds and each bullet on screen is a live bullet that was on screen or queued |
| DmlSystems.QueuedBulletsJoinWhenThereIsRoom | Phosphaze/Core/Dml/DmlSystem.cs:105-110 | when everything queued fits under the cap, every live queued bullet is on screen after the frame |
| DmlSystems.FullScreenDropsSpawns | Phosphaze/Core/Dml/DmlSystem.cs:73-81 | a frame that starts at the cap keeps only the live updated bullets |
| AnimationStates.NewState | Phosphaze/Core/Animation/AnimationState.cs:84-102 | the constructor starts at cell 0, direction 1; with too few wait times the cells become zeros and the wait times stay short |
| AnimationStates.NewStatePadded | Phosphaze/Core/Animation/AnimationState.cs:88-89 | the constructor as its comment describes it keeps the cells and pads the wait times with zeros, giving a valid state |
| AnimationStates.Update | Phosphaze/Core/Animation/AnimationState.cs:107-138 | a done state is unchanged; the wait grows by one until it passes the cell's wait time, when the index moves and the wait restarts; a missing wait time throws |
| AnimationStates.UpdateKeepsValid | Phosphaze/Core/Animation/AnimationState.cs:107-138 | on a valid state an update succeeds and the state stays valid |
| AnimationStates.UpdateStepsTheIndex | Phosphaze/Core/Animation/AnimationState.cs:114-136 | when the wait is over REPEAT moves to the next cell cyclically, ONCE stops on the last cell and is done, and REVERSE turns round at either end |
| AnimationStates.WaitHoldsTheCell | Phosphaze/Core/Animation/AnimationState.cs:112-114 | from a fresh wait, up to the wait time updates leave the index on the cell |
| AnimationStates.UpdatesKeepValid | Phosphaze/Core/Animation/AnimationState.cs:107-138 | any number of updates of a valid state succeed and leave it valid |
| AnimationStates.ShortWaitsThrow | Phosphaze/Core/Animation/AnimationState.cs:90-95 | two cells with one wait time lose their cells and the second update reads past the wait times |
| AnimationStates.PaddedWaitsRun | Phosphaze/Core/Animation/AnimationState.cs:88-89 | with padded wait times the same state runs for ever |
| AnimationStates.EnoughWaitsAgree | Phosphaze/Core/Animation/AnimationState.cs:84-102 | with a wait time for every cell both constructors agree and give a valid state |
| GameOptions.Defaults | Phosphaze/Core/Options.cs:46-76 | every guarded option starts at 0.5 |
| GameOptions.Guarded | Phosphaze/Core/Options.cs:52-58 | a setter takes a value between 0 and 1 inclusive and ignores any other |
| GameOptions.Assign | Phosphaze/Core/Options.cs:49-115 | an assignment changes only its own option, and only to a value between 0 and 1 |
| GameOptions.AlwaysInRange | Phosphaze/Core/Options.cs:46-115 | whatever is assigned, the options stay between 0 and 1 |
| GameOptions.OutOfRangeIgnored | Phosphaze/Core/Options.cs:46-115 | out-of-range assignments change nothing; they are not clamped |
| GameOptions.BackgroundDimSetting | Phosphaze/Core/Options.cs:46-59 | after one assignment the background dim is the value when it is a level and 0.5 otherwise |
| ContainerExtensions.Merge | Phosphaze/Core/Utils/ContainerExtensions.cs:11-15 | the merged dictionary has the keys of both, with the other's value wherever it has one |
| ContainerExtensions.MergeOverrides | Phosphaze/Core/Utils/ContainerExtensions.cs:11-15 | merging is map override |
| ContainerExtensions.AllEqual | Phosphaze/Core/Utils/ContainerExtensions.cs:22-28 | true exactly when every element equals the item, so true on an empty array |
| LibWav.U64 | Phosphaze/Core/libwav/libwav.h:218-219 | a 64-bit unsigned value wraps modulo 2^64 and is unchanged when in range |
| LibWav.ToInt32 | Phosphaze/Core/libwav/libwav.h:429 | the conversion to int keeps the low 32 bits and is unchanged when in range |
| LibWav.TruncDiv | Phosphaze/Core/libwav/libwav.h:228 | C++ division truncates toward zero |
| LibWav.NewStereo | Phosphaze/Core/libwav/libwav.h:205-214 | the stereo starts at index 0, moves the right pointer by one sample for two channels, and counts the whole frames of the left block |
| LibWav.MonoFromHeader | Phosphaze/Core/libwav/libwav.h:202 | one channel uses the same block on both sides, with one sample per frame |
| LibWav.StereoFromHeader | Phosphaze/Core/libwav/libwav.h:203 | two channels read the right samples one sample after the left, with two samples per frame |
| LibWav.Next | Phosphaze/Core/libwav/libwav.h:218 | next moves the index on by one modulo 2^64 and is true while it is on a sample |
| LibWav.Prev | Phosphaze/Core/libwav/libwav.h:219 | prev moves the index back by one modulo 2^64 and is true while it is on a sample |
| LibWav.Reset | Phosphaze/Core/libwav/libwav.h:220 | reset returns the index to 0 and keeps the samples |
| LibWav.PrevUndoesNext | Phosphaze/Core/libwav/libwav.h:218-219 | prev undoes next and next undoes prev, wrap-around included |
| LibWav.PrevAtStartFails | Phosphaze/Core/libwav/libwav.h:219-220 | prev at the start wraps to 2^64 - 1 and fails |
| LibWav.NextWalksTheSamples | Phosphaze/Core/libwav/libwav.h:218 | k calls of next move the index by k and the last is true exactly while it is on a sample |
| LibWav.AvgBetween | Phosphaze/Core/libwav/libwav.h:228 | the average lies between the two samples, is symmetric and is the sample when both agree |
| LibWav.AvgTruncatesTowardZero | Phosphaze/Core/libwav/libwav.h:228 | the average of -1 and -2 is -1: a negative half is truncated toward zero |
| LibWav.HasNextBlocks | Phosphaze/Core/libwav/libwav.h:425-432 | true before the iteration and after an empty fetch; otherwise false exactly when the blocks asked for would reach the end of the data |
| LibWav.ResetWave | Phosphaze/Core/libwav/libwav.h:539-542 | reset restarts the iteration, so blocks are available again |
| LibWav.ExactFitUnavailable | Phosphaze/Core/libwav/libwav.h:419-432 | a block that would end exactly at the end of the data is reported as not available |
| LibWav.IsExtendedWave | Phosphaze/Core/libwav/libwav.h:533-536 | a wave is extended exactly when its format tag is WAVE_FORMAT_EXTENSIBLE |
| LibWav.NestedDivision | Phosphaze/Core/libwav/libwav.h:612 | two truncated divisions of a count are one division by the product |
| LibWav.BeatLengthCountsBlocks | Phosphaze/Core/libwav/libwav.h:612 | the beat detector's length is the number of whole blocks of frames in the data |
| LibWav.NewFft | Phosphaze/Core/libwav/libwav.h:351-354 | the transform has no buffers yet and takes the stereo's sample count when it fits an int |
| LibWav.FftHasNext | Phosphaze/Core/libwav/libwav.h:370-374 | true until the buffers exist, then while k is below the sample count |
| LibWav.HugeStereoHasNoFftSamples | Phosphaze/Core/libwav/libwav.h:351-374 | a stereo of 2^31 samples or more converts to a negative count and the transform has nothing to iterate |

## Left out

- **Effects that stay in C#.** The performing of instructions that reach globals, the bullet, the system, builtin functions or XNA arithmetic is not modelled:
  - loads and assigns of globals and bullet properties;
  - `CallFunction`;
  - the `Binary*` and `Unary*` instructions.

  They are the parameter `other` of every run. Their bodies act on XNA vectors, and several are stubs.
- CodeBlocks.RunFrom: a `fuel` bound limits the number of instructions performed, because a DML loop need not terminate. Running out of fuel is `Ok(None)` and states nothing about the C# run beyond that many steps.
- CodeBlocks.Execute: runs with the same fuel bound as `RunFrom`.
- CodeBlocks.Evaluate: runs with the same fuel bound as `RunFrom`.
- **The code a timestamp runs.** `DmlTimelines.Update` reports which timestamps ran (`ran`) instead of executing their code blocks. The system's update takes the effect of that code as the parameter `code`: the bullets it spawns and the globals it writes, given the timestamps that ran and the system they see.
- DmlSystems.Update: a bullet's behaviours can also write globals while the bullets update; those writes are not modelled, only the timeline code's writes are.
- **Bullets.** A bullet's behaviours and components are the parameter `step` of `DmlSystems.Update`. They use XNA vectors and `Globals.randGen`.
- **Bullet factories.** These are represented by their names.
- DmlSystems.Begin: the global code is the parameter `globalCode`, which gives the globals it assigns. It runs as a code block with no bullet, so it reaches no spawning behaviour and adds no timestamps; the model therefore lets it change only the globals. An exception it throws is not modelled: `Begin` always completes.
- **`ComplexRange`.**
  - The random loop label is a parameter.
  - The body code that the statement parser emits between the delimiters is a parameter. That parser dispatches to `ProcessAssignment` and the statement parsers of BulletBuilder.cs and TimelineBuilder.cs, which are not part of this model.
- **`InlineRange`.** Its only call site is commented out, so it is not modelled.
- **DmlParser statements.** `ProcessAssignment` and `ProcessExpression` are not modelled; they dispatch statements to the builders named above.
- **`Lambda`.** The expression builder throws `NotImplemented` on the `Lambda` keyword, and the model does the same. There is nothing further to model.
- **Dead tests in `ProcessNext`.** The second tests for `True`, `False` and `Null` in ExpressionBuilder.cs come after the number test and can never succeed. They are dropped.
- **Floating point.** Number objects and game options hold reals; NaN and rounding are not modelled.
  - A timestamp interval of 0 gives NaN in C#. In the model every comparison with that NaN is false.
- **Fractional times.** A DML program can give a timestamp a fractional time or interval, such as `At(2.5)` or `AtIntervals(16.5)`, because the tokenizer folds `2.5` into one number token. The model restricts times, starts, ends and intervals to whole milliseconds, so the activity of such timestamps is not modelled.
- **A block's position after an exception.** `Execute` and `Evaluate` in CodeBlock.cs advance `currentPosition` before each `Perform`, and reset it only when the run completes. When an instruction throws, the C# block keeps its mid-code position, and its next run would resume there. `CodeBlocks.Execute` and `CodeBlocks.Evaluate` return only the exception, not the block. No caller catches such an exception and runs the block again, so the position is not observable.
- ExpressionBuilder.ParseFuncCall: states that a call's code ends with the load of the function and then `CallFunction`. It does not state that the count is the number of arguments, or that the code before the load is the arguments' code; the split of the argument tokens is stated by `ExpressionBuilder.CollectArgumentsJoins`.
- ExpressionBuilder.ParseNumber: reads digits with at most one `.`, the only text a number token can hold. The signs, exponents, surrounding whitespace and group separators that `Double.Parse` also accepts are not modelled.
- **Label resolution in place.** InstructionCleaner.cs:34 and :44 write `position` into the caller's jump objects, so the array handed to the cleaner is changed too. The model returns new instructions and leaves its input alone.
- Tokenizer.CompressIsCompressed: states only the shape of compressed text. What compression puts there is stated by `Tokenizer.CompressBlankRun`, `Tokenizer.CompressCopiesLiteral` and `Tokenizer.CompressThenUnspaced`.
- Tokenizer.CompressedIsFixpoint: states only that text already in that shape is kept. The content relation is in the same three lemmas.
- Tokenizer.SecondPassFrom: states only a bound on the output length. Its relation to the input tokens is `Tokenizer.SecondPassKeepsText`.
- Tokenizer.SecondPassOutput: states only the shape of the output. Its relation to the input tokens is `Tokenizer.SecondPassKeepsText`.
- Tokenizer.TokenizeAsWritten: states no relation to the text. As written the scan can lose an `=` (`Tokenizer.EqualDroppedAsWritten`) and pair an `=` across a token (`Tokenizer.PairingAcrossTokenAsWritten`), so its tokens need not spell the input.
- Tokenizer.Tokenize: the tokens are related to the input text only when the input has no `#`. With comments, `Tokenizer.TokenizeKeepsText` relates the output to the scanned tokens with their comments removed.
- ParserCursor.NamespaceLoop: states the shape of the result. The tokens it returns are stated by `ParserCursor.NamespaceLoopSlice` and `ParserCursor.NamespaceLoopRunsOut`.
- ParserCursor.GetNamespaceBlock: states the shape of the result. The tokens inside the delimiters are stated by `ParserCursor.GetNamespaceBlockFinds` and `ParserCursor.GetNamespaceBlockUnclosed`.
- DmlParser.ProcessRange: states the shape of the header. The compiled slices are stated by `DmlParser.RangeReadsItsSlices`.
- AnimationStates.Update: the C# `current_wait` is a 32-bit `int`; its overflow after 2^31 updates on one cell is not modelled.
- LibWav.AvgBetween: the sum in `getAvg` is a 32-bit `int`, which can overflow for 32-bit samples. The samples are taken as unbounded integers, so the overflow is not modelled.
- LibWav.NewStereo: a zero frame size divides by zero, which is undefined in C++. The frame size must be positive.
- LibWav.BeatLengthCountsBlocks: a zero frame size or precision divides by zero, which is undefined in C++. Both must be positive.
- **libwav bodies that are not in the header:**
  - the sample encoding of `Stereo::get`/`set`;
  - `maxAmp`;
  - the DFT and FFT transforms;
  - `detectBPM`;
  - `StatBeatDetection::next`;
  - the `Wave` constructor;
  - `DFTransform::hasNext`.

  Nothing of these is in the header to compare against, so none is modelled.
- **libwav floating-point numerics.** `DFTWindow`, `correlation` and `getTi` are not modelled.
- DmlTimelines.SortByStart: `List.Sort` is not stable. The model sorts by insertion and states only that the result is sorted by start and is a permutation; the order of equal starts is not claimed.
- **`Wave::hasNext` and the exact fit.** `Wave::hasNext` tests `>=`, so a block that ends exactly at the end of the data is reported unavailable (`LibWav.ExactFitUnavailable`).
- **Outside the DML core, not modelled:**
  - the Behaviours, colliders and geometry utilities;
  - the math builtins and TimeCommands.cs;
  - DmlFileReader.cs, BulletBuilder.cs and TimelineBuilder.cs;
  - the map and song tools;
  - the XML and file loaders;
  - the scenes, input, drawing and global state;
  - the WASAPI audio class.

  They are floating-point geometry, randomness, file and device I/O, or thin dispatch over the modelled parser.

## Findings

| source | as written | input that shows it | evidently intended | confidence | as-written member | corrected member |
|---|---|---|---|---|---|---|
| Phosphaze/Core/Dml/Parse/Tokenizer.cs:50-58 | an `=` whose previous token is one character other than `<`, `>`, `=`, `!` is silently discarded | `i == 2` tokenizes to `i`, `2`: both `=` vanish | the `=` starts a token of its own, so `==` survives as an operator | not executed | Tokenizer.EqualityDroppedAsWritten | Tokenizer.EqualityKept |
| Phosphaze/Core/Dml/Parse/DmlObject.cs:78-88 | the option factory binds the i-th value popped, the last argument first, to the i-th parameter | `UniformDistribution(0, 10)` binds `a` to 10 and `b` to 0 | the k-th pop binds the last-but-k parameter, the order the other builtins pop in | not executed | DmlObjects.OptionArgumentsReversedAsWritten | DmlObjects.CallOptionFactoryBindsArguments |
| Phosphaze/Core/Dml/Parse/Tokenizer.cs:50-86 | an `=`, `>`, `&`, vertical bar or `.` pairs with the token before the current one even when the current token is not empty | `a<b=1` scans to `a`, `<=`, `b1`: the `=` joins the `<` across `b` | a character pairs only with a token that ends right before it, when the current token is empty | not executed | Tokenizer.PairingAcrossTokenAsWritten | Tokenizer.PairingFromEmptyToken |
| Phosphaze/Core/Animation/AnimationState.cs:90-95 | with more cells than wait times, the wait times are copied over the caller's cells and the state gets an array of zeros as cells, while the wait times stay short | cells `[7, 8]`, waits `[0]`: the cells become `[0, 0]` and the second update reads wait time 1, which is missing | the comment's intent: pad the wait times with zeros and keep the cells | not executed | AnimationStates.ShortWaitsThrow | AnimationStates.PaddedWaitsRun |
