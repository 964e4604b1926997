# posish, verified

posish is a POSIX shell written in C11. This project models the parts of it whose correctness does not depend on
the operating system, and proves what those parts are for. Where the C code changes things step by step, the model
is a method or a class that changes the same things in the same order. Its contract is a function on plain values,
and the theorems are about that function.

The main results, part by part:

- **Arithmetic expansion** (`CLong`, `Text`, `TextBases`, `ArithSyntax`, `ArithEval`, `ArithParser`, `Arith`,
  `ArithLaws`). The one-pass evaluator with its `eval` flag refines "build a tree, then evaluate it" at every precedence
  level: value, store and errors. The tree builder accepts exactly the grammar, whatever the spacing. What texts mean is
  proved from C's table of operators and from the integers: which operands each operator takes, and what it makes of
  them. The fast path agrees with the full parser exactly when the text does not spell the least `long`. Decimal
  formatting and `strtol` undo each other for every `long`.
- **Control flow** (`Control`, `ControlLog`, `ControlRefines`, `ControlLevels`, `ControlLaws`, `Shell`). The
  interpreter's break and continue counters refine a semantics in which every command ends with a completion: on runs
  whose conditions do not break, the interpreter ends exactly when the semantics does, and in the same way. On every
  run, the levels pending behind a command are those the last `break` or `continue` named, less one for each loop body
  that has ended since, as long as there are any. Under `set -e` a list goes on behind status 0 and ends at the first
  failure that is not to be overlooked; conditions, negations and skipped operands never end it.
- **Command parser** (`ShellSyntax`, `ShellParser`, `ShellRoundTrip`, `ShellRefusals`, `ShellConserve`). Three nested
  index scanners over one text read back every tree of lists, asynchronous items, and-or lists, pipelines, negations,
  nested subshells and simple commands from every text that spells it, with any blanks around its operators, or none.
  For every text they accept, no character of a word is dropped, invented or moved.
- **Aliases** (`AliasTokens`, `AliasRewrite`, `AliasSpelling`, `AliasLaws`, `AliasQuote`). Alias expansion ends for every
  alias table, by a weight that the suppression chains bound. Its result is an in-place unfolding of the words of the
  command in which no alias is unfolded inside itself. Which words are replaced is proved as an if-and-only-if on the
  words and operators of the text. What `alias` prints is read back as one word with the same value.
- **Field splitting** (`FieldSplit`, `FieldLaws`). Splitting text with in-band quoting marks is splitting a sequence
  of marked characters, and that splitting loses nothing but delimiters. For every IFS, blanks beside another IFS
  character or an end make no difference, and once they are left out every IFS character ends exactly one field.
- **Storage** (`ArenaModel`, `ArenaProps`, `ArenaLaws`, `ArenaReplay`, `Arena`, `Symbols`, `Vars`, `TempAssign`). Arena
  marks nest, a repeated run that takes recycled blocks in their order gets the same addresses, live allocations never
  overlap, and no address is ever disowned. The hashed table threads two linked lists through the same nodes and keeps
  its buckets, order and load. The three caches above it always agree with the plain list of variables. A command sees
  the assignments in front of it in its environment, and they are undone exactly.
- **Descriptors, options, here-documents** (`Redirect`, `Getopts`, `GetoptsLaws`, `Heredoc`). Redirections leave each
  descriptor as the last one of it says. Restoring saved descriptors gives back the table there was, also after a
  failure part-way and whatever has become of the redirected descriptors in between. Repeated `getopts` calls enumerate
  the options of the argument list and stop at the first operand, and options are read back from how they are written.
  The three here-document scanners agree on every text, for exactly the lists of delimiters for which they should.

Some promises turn out not to hold of the code as it stands. The code is modelled as it is, and the condition under
which the promise holds is proved:

- `break` and `continue` are not clamped to the number of enclosing loops (src/builtins/special.c:602-633), so a
  count that is too large leaves a level pending that silences the rest of the program
  (`ControlRefines.TooManyLevelsDiffers`). On runs whose conditions do not break, that happens exactly when some count
  was too large (`ControlRefines.PendingIffOver`); on all runs, exactly when the last count named more levels than loop
  bodies have ended since (`ControlLevels.PendingIffUncounted`). The interpreter runs a program as the standard does
  exactly when no condition breaks and no level is pending at the end (`ControlRefines.ProgramRefines`).
- A loop looks at the counters only behind its body. A condition that ends in a break of n levels leaves the loop
  with all n still pending where its status ends the loop, as in `until break`, and starts the body with all n pending
  where it does not, as in `while break` (`ControlLevels.BreakingTest`, `ControlRefines.BreakingTestDiffers`).
- Once a `!` or a skipped operand of `&&` has marked a failure as one to be overlooked, no command but a pipeline of
  several stages takes the mark away before the end of the list, so a later failure does not end the run under `set -e`
  either (`ControlLaws.StaleMarkExample`, `ControlLaws.MarkedNeverEnds`). A failing command ends the run exactly where
  the mark is not set (`ControlLaws.ListUnderErrexit`); in lists without `!`, `&&` and the or operator it always does
  (`ControlLaws.PlainListEnds`).
- Alias expansion takes `then`, `do`, `else` and `elif` for openings of a command wherever they stand, also as arguments,
  and the delimiter of a here-document for a command word. `AliasLaws.ExpandsExactly` says for which words that matters.
- The least `long` written as a literal is accepted by the arithmetic fast path alone (`Arith.FastAgrees`).
- With nested marks, a rewind can return blocks in another order than they were taken in
  (`ArenaProps.NestedMarksMoveAllocations`). A run is replayed exactly if, behind a nested scope that has opened
  blocks, it takes recycled blocks from the front of the free list (`ArenaReplay.ReplayAfterRewind`); so does every run
  without nested marks, and every run whose requests fit into a block of the default size.
- A descriptor from ten on that has been saved and closed may be taken to hold the copy of another one. Redirecting it
  again then loses that copy (`Redirect.TakenIsLost`, `Redirect.TargetsFromTenCollide`); a list of redirections in
  which that does not happen is undone exactly (`Redirect.RestoreIsExact`).
- The here-document scanners disagree on some text exactly when the last delimiter is empty and every delimiter is
  one that a line can match (`Heredoc.ScannersAgree`).

Conventions: strings are NUL-free sequences of characters; `At(s, i)` is the terminating NUL at the end of `s`.
Character classes are those of the "C" locale. C `long` is 64 bits wide, and signed overflow, which C leaves
undefined, wraps around on both sides of every statement. A C function that prints a message and returns an error is
modelled by its error result.

The files verify with `dafny verify dfyconfig.toml`.

## Model

| member | source | states |
|---|---|---|
| CLong.TruncatedDivision | src/arith.c:615-651 | C division: quotient and remainder rebuild the dividend, and the remainder is smaller than the divisor and never has the opposite sign |
| CLong.BitwiseBits | src/arith.c:779-834 | bitwise and, exclusive or and or act on each of the 64 bits of the two's complement patterns |
| Text.ParseFormatted | src/vars.c:147-163 | reading back the decimal text of any long, the least one included, gives that long |
| Text.FormattedFits | src/vars.c:195-196 | digits, sign and terminator fit in a buffer of `3 + 3 * sizeof(long)` bytes for every long |
| Text.DecimalInjective | src/vars.c:207-212 | different magnitudes have different digits |
| Text.UnsignedDecimal | src/vars.c:156 | decimal digits standing anywhere in a text, zero included, are read with base 0 as that decimal number and end where they end |
| TextBases.BasesRead | src/vars.c:147-163 | octal text behind `0` and hexadecimal text behind `0x` or `0X`, in either case and with either sign or none, is read as the number it stands for |
| Text.EmitDigits | src/vars.c:208-212 | the digit loop fills the buffer with the digits of the magnitude, least significant first |
| Text.ReversePrefix | src/vars.c:218-228 | the exchange loop reverses the first characters of the buffer in place and touches no others |
| Text.FormatLongDecimal | src/vars.c:195-232 | the buffer holds the decimal text of the value and its terminator, and the returned length is that of the text |
| ArithSyntax.ParsePrinted | src/arith.c:540-996 | at every level the tree builder reads back a tree derivable at that level and stops behind it |
| ArithSyntax.ParseSpine | src/arith.c:615-878 | the loops of the left-associative levels rebuild the left spine of a tree operand by operand |
| ArithSyntax.ParseUndoesPrint | src/arith.c:540-996 | every tree the grammar derives is what its printed text parses to |
| ArithSyntax.SpelledTokens | src/arith.c:165-377 | a text is split into the tokens it spells, with any white space around each or none, as long as no token goes on into the next character |
| ArithSyntax.ParseUndoesSpelling | src/arith.c:540-996 | every tree the grammar derives is what every text parses to that spells it |
| ArithSyntax.ParsedIsPrinted | src/arith.c:540-996 | what the builder took is exactly the print of the tree it built, and the tree is derivable at that level |
| ArithSyntax.WellFormedText | src/arith.c:998-1033 | a text is well formed if and only if its tokens are those of a derivable tree, and the tree is unique |
| ArithEval.ReadAfterWrite | src/arith.c:413-458 | a value assigned to a writable variable is the value read back, and no other variable reads differently |
| ArithEval.EvalFrame | src/arith.c:912-996 | evaluation changes only variables the expression assigns, and no read-only one |
| ArithParser.ErrorStays | src/arith.c:626-649 | an error in a left operand is the error of the whole level, whatever stands to the right |
| ArithParser.Parser.NextToken | src/arith.c:165-377 | the scanner takes the longest token at the position, leaves the position behind it, and fails on a character or a number it cannot take |
| ArithParser.Parser.ParsePrimary | src/arith.c:540-583 | a primary takes the tokens of its tree and gives the tree's value, store and error; without `eval` it takes the same tokens and changes nothing |
| ArithParser.Parser.ParseUnary | src/arith.c:585-613 | the same for prefix operators |
| ArithParser.Parser.ParseStrict | src/arith.c:615-834 | the same for the eight levels of strict binary operators, left-associative, with division by zero and shift width as errors |
| ArithParser.Parser.ParseLogicalAnd | src/arith.c:836-856 | the same for `&&`: a right operand that does not count is parsed and changes nothing |
| ArithParser.Parser.ParseLogicalOr | src/arith.c:858-878 | the same for the or operator |
| ArithParser.Parser.ParseConditional | src/arith.c:880-910 | the same for the conditional operator: only the chosen branch counts |
| ArithParser.Parser.ParseAssignment | src/arith.c:912-996 | the same for assignments, right-associative, with the target checked and the store written; well formed or not, only names in front of an assignment operator change |
| Arith.FastTokens | src/arith.c:460-538 | what the fast path accepts is, token by token, one of four small trees, unless it spells the least long, which the full scanner refuses |
| Arith.FastAgrees | src/arith.c:460-538 | on a text the fast path accepts, the full parser succeeds if and only if the text does not spell the least long, and then gives the same value and the same, unchanged store |
| Arith.WholeText | src/arith.c:998-1033 | the outcome of the outermost level decides the outcome of the text: left-over tokens make it malformed |
| Arith.Evaluate | src/arith.c:998-1033 | a well-formed text gives its tree's value and store, errors included; a malformed one is an error except where the fast path reads the least long, and leaves the store of its well-formed front, if it has one; no text changes a name it does not assign, or a read-only one |
| ArithLaws.EarlierRowBindsTighter | src/arith.c:615-878 | of two infix operators with one operand between them, the one in the earlier of the ten rows of C takes it, and in the same row the left one: putting the parentheses there changes nothing |
| ArithLaws.PrefixBindsTightest | src/arith.c:585-613 | a prefix operator takes the operand behind it and no more |
| ArithLaws.PrefixOfRightOperand | src/arith.c:585-613 | in front of a right operand a prefix operator belongs to that operand |
| ArithLaws.ConditionalIsLooser | src/arith.c:880-910 | the conditional operator is looser than every infix operator and groups to the right |
| ArithLaws.AssignmentIsLoosest | src/arith.c:912-996 | an assignment takes any expression behind it, other assignments included |
| ArithLaws.OperatorsMean | src/arith.c:615-834 | each of the sixteen strict operators evaluates left, then right, and gives the value of the integers, modulo 2 to the 64 where it does not fit, or of the bits; division by zero and shift widths out of range are errors |
| ArithLaws.LogicalOperatorsMean | src/arith.c:836-878 | the logical operators give 0 or 1 and evaluate the right operand only where the left one does not decide |
| ArithLaws.ConditionalMeans | src/arith.c:880-910 | the conditional operator evaluates its condition and then one of the others |
| ArithLaws.PrefixMeans | src/arith.c:585-613 | sign, complement and negation in integers |
| ArithLaws.OperandsMean | src/arith.c:540-583 | a number is its value; a variable is the number its text reads as, and 0 if it is unset or no number |
| ArithLaws.ErrorsEnd | src/arith.c:615-878 | the error of an operand is the error of the whole, and nothing behind it is evaluated |
| ArithLaws.AssignmentMeans | src/arith.c:912-996 | an assignment stores its value as text and has that value; a read-only variable is an error that ends a shell that is not interactive |
| ArithLaws.CompoundIsPlain | src/arith.c:912-996 | each compound assignment is the plain assignment of its operator applied to the variable: value, store and errors |
| ArithLaws.ProductFirst | src/arith.c:615-681 | `a + b * c` is the sum of a and the product, where nothing overflows |
| ControlRefines.FlagsRefine | src/exec.c:1161-1256 | the interpreter ends, with no loop condition breaking on the way, if and only if the big-step semantics does, and then in the state that encodes the completion, with the same data and status and the loop depth restored |
| ControlRefines.IfRefines | src/ast_exec.c:63-111 | the same for `if`, with `errexit` off in the condition and restored behind it |
| ControlRefines.SequenceRefines | src/exec.c:1179-1190 | the same for lists, which stop at the first completion that is not normal |
| ControlRefines.AndOrRefines | src/exec.c:1194-1213 | the same for and-or lists, which skip by status and stop by completion |
| ControlRefines.LoopRefines | src/ast_exec.c:113-192 | the same for `while` and `until`: a level counted down to zero leaves or restarts this loop |
| ControlRefines.RoundRefines | src/ast_exec.c:160-185 | the same for one round of a loop, from its body to its flags |
| ControlRefines.ForRefines | src/exec.c:472-585 | the same for `for`, whose word list is expanded once |
| ControlRefines.OverSurvives | src/ast_exec.c:160-185 | on a run whose conditions do not break, a completion leaves the outermost loop with levels to spare if and only if some count was larger than the loops around it |
| ControlRefines.CountingAgrees | src/ast_exec.c:160-185 | while no count is larger than the loops around it, counting as given and counting clamped are the same semantics |
| ControlRefines.ProgramRefines | src/exec.c:1318-1329 | the interpreter runs a whole program to its end, with no condition breaking and no level pending behind it, if and only if the standard's semantics does with no condition breaking and no count too large, and then both runs are the same |
| ControlRefines.PendingIffOver | src/exec.c:304-307 | behind a whole program that the interpreter has run to its end with no condition breaking, a level is pending if and only if some count was too large |
| ControlRefines.TooManyLevelsDiffers | src/builtins/special.c:602-633 | a concrete program in which a count that is too large silences the command behind the loop |
| ControlRefines.BreakingTestDiffers | src/ast_exec.c:149-160 | a concrete loop whose condition breaks and whose body still runs |
| ControlLevels.BreakingTest | src/ast_exec.c:142-160 | a condition that ends in a break or continue of n levels leaves the loop with all n pending if its status ends the loop, and starts the body with all n pending if not |
| ControlLevels.BreakingTestOutlives | src/ast_exec.c:142-160 | a whole program that is a loop ended by such a condition ends with all n levels pending, the body not run |
| ControlLevels.LevelsConserved | src/ast_exec.c:113-192 | on every run of every command from any state, the levels pending behind it are those the last break or continue named, less one for each loop body that has ended since, as long as there are any |
| ControlLevels.PendingIffUncounted | src/exec.c:304-307 | behind any program the levels pending are those by which the last break or continue named more than loop bodies have ended since, and none if it named no more |
| ControlLaws.ListUnderErrexit | src/exec.c:1179-1190 | a list goes on behind status 0 and behind failures that `set -e` overlooks; the first other failure ends the run with its status as that of the shell, and no later command is run; a jump ends the list whatever the status |
| ControlLaws.IfUnderErrexit | src/ast_exec.c:89-107 | the condition of an `if` runs with `errexit` off, chooses the branch and never ends the run; a branch that fails while `set -e` is in force does |
| ControlLaws.LoopUnderErrexit | src/ast_exec.c:138-190 | the condition of a loop runs with `errexit` off; that it fails ends a `while`, starts the body of an `until`, and never ends the run; a body that fails while `set -e` is in force does, and behind any other the loop starts again |
| ControlLaws.JumpsLeaveLoops | src/ast_exec.c:160-185 | a loop takes one level off a `break` and is left, takes one off a `continue` and is left if any remain or started again, and is left by `return` and `exit` as they are |
| ControlLaws.JumpsNeedALoop | src/builtins/special.c:602-633 | `break` and `continue` outside any loop fail and leave nothing pending; inside one they succeed and ask for their levels |
| ControlLaws.ForRunsEachWord | src/exec.c:544-580 | a `for` assigns each word in turn and runs the body, and the first body that fails while `set -e` is in force ends the run |
| ControlLaws.ForMayFail | src/exec.c:472-556 | words that cannot be expanded give status 2, a variable that cannot be assigned gives status 1 and ends a shell that is not interactive |
| ControlLaws.NegationIsExempt | src/exec.c:971-985 | `!` turns the status over, and no failure behind it ends the run |
| ControlLaws.AndOrGroupsLeft | src/exec.c:1194-1213 | and-or lists group to the left with equal precedence: one more operand is run or skipped by the status of the list before it, and where `&&` skips it the failure is overlooked |
| ControlLaws.AndOrOfOne | src/exec.c:1194-1196 | an and-or list of one operand is that operand |
| ControlLaws.PlainListEnds | src/exec.c:1258-1265 | a list with no negation and no and-or list inside ends at its first failure, for all commands that leave the three settings alone |
| ControlLaws.MarkedNeverEnds | src/exec.c:1204 | behind a marked failure no failure of such commands ends the run any more, whatever the tree |
| ControlLaws.FailureEndsExample | src/exec.c:1179-1190 | under `set -e` the list `true; false; echo` ends at `false` with its status, and `echo` is not run |
| ControlLaws.StaleMarkExample | src/exec.c:979-983 | under `set -e` a failing command behind a negation in the same list does not end the run |
| ControlLaws.RedirectedRunsBetween | src/ast_exec.c:71-135 | a compound command runs between setting its redirections and undoing them, and not at all, with status 1, if they fail |
| Shell.Interpreter.ExecuteNode | src/exec.c:1161-1256 | executing a node of the modelled kinds changes the shell state exactly as the flag-driven specification says |
| Shell.Interpreter.RunSequence | src/exec.c:1179-1190 | the same for lists |
| Shell.Interpreter.RunAndOr | src/exec.c:1194-1213 | the same for and-or lists |
| Shell.Interpreter.RunIf | src/ast_exec.c:63-111 | the same for `if` |
| Shell.Interpreter.RunLoop | src/ast_exec.c:113-192 | the same for `while` and `until`, loop depth restored |
| Shell.Interpreter.RunRedirected | src/ast_exec.c:71-135 | a compound command runs between setting its redirections and undoing them, both parameters of the model, and setting them in vain is its status |
| Shell.Interpreter.RunFor | src/exec.c:472-585 | the same for `for`, loop depth restored |
| ShellParser.ParseText | src/parser.c:2688-2715 | the parser's outcome on any text: a tree, an unexpected token, or a text outside the core language |
| ShellParser.ParseSequence | src/parser.c:2442-2686 | the list scanner cuts its range at unparenthesised `;` and single `&`, skips empty parts, and marks asynchronous items |
| ShellParser.ParseAndOrAt | src/parser.c:2211-2440 | the and-or scanner cuts its range at doubled operators and refuses empty parts |
| ShellParser.ParsePipelineAt | src/parser.c:1993-2027 | leading `!` turn the negation over, each of them |
| ShellParser.ParseStages | src/parser.c:2028-2209 | the pipeline scanner cuts its range at single bars, not at the last character, and refuses empty stages |
| ShellParser.ParseCommandAtom | src/parser.c:1761-1991 | a trimmed range is a subshell if its first parenthesis closes at its end, and a simple command otherwise |
| ShellParser.UnwrapSubshell | src/parser.c:963-1029 | the position of the parenthesis that closes the first one, if only blanks follow it |
| ShellParser.SplitWords | src/lexer.c:235-379 | the words of a simple command are its maximal runs without white space |
| ShellRoundTrip.PassAndOr | src/parser.c:2465-2613 | through every text of an and-or list the scanner of lists and the search for a parenthesis come without cutting, at any parenthesis depth, and no reserved word is met |
| ShellRoundTrip.PassList | src/parser.c:963-1029 | the search for a closing parenthesis comes through every text of a list, and so does any scanner inside parentheses |
| ShellRoundTrip.AtomRead | src/parser.c:1761-1991 | a simple command or subshell is read back from every text of it, blanks around it included |
| ShellRoundTrip.PipelineRead | src/parser.c:1993-2209 | a pipeline is read back from every text of it, with any number of negations in front and any blanks around its bars, or none |
| ShellRoundTrip.AndOrRead | src/parser.c:2211-2440 | an and-or list is read back from every text of it |
| ShellRoundTrip.ListRead | src/parser.c:2442-2686 | a list is read back from every text of it, with asynchronous items, and with separators that touch the words beside them, are repeated, or stand in front or behind |
| ShellRoundTrip.ParseUndoesSpelling | src/parser.c:2688-2715 | every tree of the core language is read back from every text that spells it |
| ShellRoundTrip.SpellingUnique | src/parser.c:2688-2715 | no text spells two trees |
| ShellRoundTrip.ParseUndoesPrint | src/parser.c:2688-2715 | every tree of the core language has a text without a blank that is not needed, and is read back from it |
| ShellRefusals.NothingInFront | src/parser.c:2160-2170 | a text that begins with a bar, `&` or a doubled operator is refused |
| ShellRefusals.NothingBehind | src/parser.c:2386-2391 | a text that ends in a doubled operator is refused, however many commands stand in front of it |
| ShellConserve.ParserConserves | src/parser.c:2688-2715 | for every text the parser accepts, the tree has the form of the grammar, and its words hold all the characters of words in the text, in order, and no others |
| ShellConserve.ItemsKeep | src/parser.c:2465-2686 | the same for the items cut from any range of a text |
| ShellConserve.WordsKeep | src/lexer.c:243-376 | splitting a command into words drops only white space |
| AliasTokens.TokenizeWithSuppress | src/alias.c:531-644 | a text is split into operators and words with the white space before them, each carrying the given chain |
| AliasTokens.RenderUndoesTokens | src/alias.c:735-762 | putting the tokens of a text together again gives the text, up to white space behind the last token |
| AliasTokens.RenderTokens | src/alias.c:735-762 | the rendered text is the tokens with their white space, in order |
| AliasSpelling.TokenizeSpelled | src/alias.c:531-644 | a text is split into the words and operators it spells, with any white space around them or none, quoted parts of words kept whole |
| AliasSpelling.SubstitutionsAreWhole | src/alias.c:531-644 | a substitution is part of a word up to the parenthesis or backquote that closes it, one substitution inside another included |
| AliasSpelling.ContinuationGoes | src/alias.c:474-529 | a backslash and the newline behind it are dropped, and nothing else |
| AliasRewrite.ChainContains | src/alias.c:329-357 | a name is found if and only if it is one of the lines of the chain |
| AliasRewrite.ChainGrows | src/alias.c:359-378 | appending a name to a chain adds exactly that name behind the others and keeps the chain well-formed |
| AliasRewrite.ReplaceToken | src/alias.c:650-733 | the replacement takes the place of one token, whose white space goes to whatever follows |
| AliasRewrite.VisitWord | src/alias.c:851-1014 | at every word the scan makes the specified decision: keep it with the next state, or expand it |
| AliasRewrite.RewriteSnippet | src/alias.c:794-1020 | the scan ends for every table and text, and gives the specified text and change flag |
| AliasRewrite.ExpandLighter | src/alias.c:918-958 | an expansion lowers the weight of the tokens that are left, which bounds the scan |
| AliasRewrite.ExpandOk | src/alias.c:918-958 | an expansion keeps every token's chain a list of different existing aliases that tells how the token came about |
| AliasRewrite.NoSelfExpansion | src/alias.c:329-378 | in the result, every token came out of different aliases, at most as many as there are, and is a word of the youngest one's value |
| AliasRewrite.ExpansionUnfolds | src/alias.c:794-1020 | the result is an unfolding of the words of the command in place: nothing is lost or reordered, and no alias is unfolded inside itself |
| AliasRewrite.NoAliasNoChange | src/alias.c:794-1020 | a text with no alias among its words is not changed, up to line continuations and white space at its end |
| AliasRewrite.CommandWordExpands | src/alias.c:885-959 | the first word is expanded whenever it is a plain alias that is not reserved, no assignment and no descriptor number of a redirection |
| AliasRewrite.BlankValueReachesNextWord | src/alias.c:942-953 | where the scan gets to the word behind an expanded alias out of command position, that word is expanded if and only if the alias value ends in a blank |
| AliasLaws.ExpandsExactly | src/alias.c:794-1020 | for every text without `for` and `case`: expansion changes it if and only if some word is an alias that stands at the start, behind an operator, an opening word, a newline or an assignment in such a place, redirections aside, with nothing else meant by it; arguments and operands are left alone |
| AliasLaws.FirstIsReplaced | src/alias.c:918-958 | the first such word is replaced and everything in front of it stays |
| AliasLaws.OneAliasReplaced | src/alias.c:650-762 | where no other alias is among the words of its value and behind it, the word is replaced by its value and nothing else changes |
| AliasLaws.AliasOfAlias | src/alias.c:918-958 | where the value is one word and another alias, that one is expanded in its turn |
| AliasLaws.ArgumentsStay | src/alias.c:1003-1013 | a simple command whose first word is no alias is unchanged, whatever its arguments name |
| AliasLaws.ForExpandsItsBody | src/alias.c:963-982 | the name and the words of a `for` are left alone, and so is its `do`; the command behind `do` is expanded if it is an alias |
| AliasLaws.CaseExpandsItsClause | src/alias.c:984-1002 | the word and the first pattern of a `case` are left alone; the command behind the parenthesis is expanded if it is an alias |
| AliasQuote.AliasQuoteValue | src/builtins/regular.c:1448-1480 | the buffer is filled to its computed length with the quoted value |
| AliasQuote.LexerSplitWords | src/lexer.c:235-379 | a line is split into words, quotes and substitutions kept whole, errors included |
| AliasQuote.LineSplit | src/lexer.c:235-379 | a line is split into the words it spells, with any white space around them, quoted parts kept whole |
| AliasQuote.QuotedIsOneWord | src/lexer.c:235-379 | a quoted value is one word of a line, unchanged |
| AliasQuote.ExpandQuote | src/expand.c:1637-1724 | removing the quotes of a quoted value gives the encoding of its characters, all of them quoted |
| AliasQuote.QuotedReadsBack | src/builtins/regular.c:1448-1480 | a quoted value is one word, and that word expands to exactly the value, with and without field splitting, for every IFS without marker bytes |
| FieldSplit.RestoreQuotedMarkers | src/field_split.c:49-82 | the two-index rewrite leaves the restored text at the front of the buffer |
| FieldSplit.FieldSplitHasDelimiter | src/field_split.c:181-207 | a text has a delimiter exactly where an unquoted IFS character stands |
| FieldSplit.FieldSplitSplit | src/field_split.c:84-179 | the fields are appended to the words there were, and counted |
| FieldSplit.FieldSplitAppendPiece | src/field_split.c:220-243 | a piece without delimiters, or with splitting off, is one word, however empty; any other piece is its fields |
| FieldSplit.FieldSplitAppendAtExpansion | src/field_split.c:245-277 | every part between separators is split on its own, and the words are appended in order |
| FieldSplit.PartsAgree | src/field_split.c:245-277 | encoded parts with separators between them become the words of each part, in order; no field crosses a separator |
| FieldSplit.AppendLiteral | src/expand.c:286-323 | text is appended in the encoding of quoted characters |
| FieldSplit.RestoreUndoesEncode | src/field_split.c:49-82 | restoring encoded characters gives back the characters |
| FieldSplit.DelimitersAgree | src/field_split.c:99-116 | an encoded text has a delimiter if and only if an unquoted IFS character is among the characters |
| FieldSplit.SplitAgrees | src/field_split.c:118-176 | splitting encoded characters gives the texts of the fields of the characters |
| FieldSplit.PieceAgrees | src/field_split.c:220-243 | the words an encoded piece becomes are those its marked characters become |
| FieldSplit.SplittingKeeps | src/field_split.c:118-176 | splitting drops unquoted IFS characters and nothing else; quoted characters and quoted nothings stay in order |
| FieldLaws.BlanksCollapse | src/field_split.c:118-131 | for every IFS, a blank beside another IFS character or an end of the text makes no difference to the fields |
| FieldLaws.EachMarkEndsAField | src/field_split.c:118-176 | for every IFS, once such blanks are left out each IFS character ends exactly one field, and so does the end of the text unless an IFS character stands there, and the empty fields are those with an IFS character or nothing before their end; there are at least as many fields, and at most as many empty ones, as IFS characters that are not blanks |
| FieldLaws.BlanksMakeNoEmptyField | src/field_split.c:118-131 | with an IFS of nothing but spaces, tabs and newlines no field is empty |
| FieldLaws.EveryMarkCounts | src/field_split.c:118-176 | with an IFS without them every IFS character ends a field, and the empty fields are those between two of them or in front |
| FieldSplit.UnsplitStaysWhole | src/field_split.c:220-243 | text stays one word, its quoting removed, where splitting is off or it has no unquoted IFS character |
| FieldSplit.QuotedIsOneField | src/expand.c:286-323 | for every IFS without marker bytes, quoted text comes through splitting as one field that is that text |
| ArenaProps.AllocStock | src/arena.c:247-298 | an allocation keeps all blocks, and adds one exactly when neither the head nor any recycled block has room |
| ArenaLaws.WhereAllocationsGo | src/arena.c:247-298 | an allocation that fits, exactly or with room to spare, goes right behind what is used of the newest block; otherwise into the first recycled block that is large enough, and into a new one only where there is none |
| ArenaLaws.GrownIsLeast | src/arena.c:247-298 | a new block has the default size doubled until it is enough, and not once more |
| ArenaLaws.BytesTaken | src/arena.c:56-61 | an allocation takes a header and its size, 1 if it is 0, rounded up to the next multiple of the alignment |
| ArenaProps.RewindStock | src/arena.c:225-241 | a rewind keeps all blocks |
| ArenaProps.AllocValid | src/arena.c:247-298 | an allocation keeps all blocks apart, aligned and filled within their capacity |
| ArenaProps.ResetIsRewind | src/arena.c:210-218 | a reset is the rewind to the mark of an empty arena |
| ArenaProps.RewindIs | src/arena.c:225-241 | a rewind cuts the chain at the mark and puts what was above it in front of the free list, oldest first |
| ArenaReplay.RewindReturns | src/arena.c:88-112 | a rewind puts the blocks a run opened outside its nested scopes in front of what the run has left in the free list, in the order they were opened in |
| ArenaReplay.ReplayAfterRewind | src/arena.c:225-298 | repeating a run with nested marks after rewinding it hands out the same addresses and leaves the very same arena, with no new block, if behind a nested scope that has opened blocks it takes recycled blocks in their order |
| ArenaReplay.ReplayAfterReset | src/arena.c:210-218 | the same after a reset, for a run that began with nothing allocated |
| ArenaProps.NestedMarksMoveAllocations | src/arena.c:88-92 | concrete nested scopes after which the same allocation gets another address |
| ArenaReplay.AlwaysStocked | src/arena.c:63-112 | after any allocations, resets and rewinds no block is smaller than the default size, and recycled blocks are empty |
| ArenaReplay.RunStack | src/arena.c:88-112 | in a run with nested marks whose requests fit into a default block, the blocks above a mark and the recycled ones form one stack, which only gains new blocks at its bottom |
| ArenaReplay.FittingIsOrderly | src/arena.c:94-112 | a run with nested marks takes recycled blocks in their order if every request fits into a block of the default size |
| ArenaReplay.FlatIsOrderly | src/arena.c:94-112 | so does a run without nested marks, however large its requests are |
| ArenaProps.ScopeRestores | src/arena.c:220-241 | whatever runs between a mark and its rewind, with nested marks, the chain and its used counters come back exactly |
| ArenaProps.RunSafe | src/arena.c:247-298 | over any run with nested marks live allocations stay disjoint, aligned and inside used space, and older marks keep their hold |
| ArenaProps.OwnedForever | src/arena.c:144-178 | an owned address stays owned through any allocations, resets and rewinds, also to marks used in the wrong order |
| ArenaProps.HandedOutIsOwned | src/arena.c:352-372 | every byte of every allocation is owned from the moment it is handed out |
| ArenaProps.ReallocKeeps | src/arena.c:300-340 | a reallocation keeps the common prefix and changes no byte of any live allocation |
| Arena.Arena.AllocIn | src/arena.c:247-298 | the linked arena allocates as specified and answers the specified address |
| Arena.Arena.TakeRecycledBlock | src/arena.c:94-112 | the first recycled block with room is unlinked, the others keep their order |
| Arena.Arena.RecycleHead | src/arena.c:88-92 | the head block moves to the front of the free list, emptied |
| Arena.Arena.Reset | src/arena.c:210-218 | the linked arena resets as specified |
| Arena.Arena.MarkTake | src/arena.c:220-223 | a mark is the head block and how much of it is used |
| Arena.Arena.MarkRewind | src/arena.c:225-241 | the linked arena rewinds as specified, also to a stale mark |
| Arena.Arena.PointerInArena | src/arena.c:164-178 | an address is found if and only if it lies in a block of the chain or of the free list |
| Symbols.Table.Lookup | src/symbols.c:78-96 | a lookup by bucket finds the node of a name if and only if it is in the table |
| Symbols.Table.Insert | src/symbols.c:103-128 | the node goes to the front of its bucket's chain and to the end of the iteration list, the table grows in time, and every node stays in exactly the bucket of its hash |
| Symbols.Table.LinkAtEnd | src/symbols.c:116-126 | walking to the last node and linking the new one behind it appends it to the iteration list |
| Symbols.Table.Remove | src/symbols.c:130-169 | the node of a name is unlinked from its bucket's chain and from the iteration list, if there is one, and the others keep their order and buckets |
| Symbols.Table.UnlinkIter | src/symbols.c:150-158 | walking to the link that leads to a node and leading it past takes that node, and no other, out of the iteration list |
| Symbols.Table.UnlinkBucket | src/symbols.c:143-148 | the same for the chain of one bucket, the chains of the others untouched |
| Symbols.Table.Rehash | src/symbols.c:31-49 | relinking the chains puts every node in exactly the bucket of its hash and leaves the iteration list as it is |
| Vars.ReplaceValue | src/vars.c:301-314 | the parsed value is remembered exactly when the text is a number |
| Vars.ReplaceValueLong | src/vars.c:316-326 | a number stored as text is remembered as the number that text reads as |
| Vars.Variables.LookupEntry | src/vars.c:90-106 | a lookup through the remembered entry finds what the plain list holds |
| Vars.Variables.StoreValue | src/vars.c:328-361 | a variable is set in its place or put at the end, unless it is read-only and that is checked, and all caches agree |
| Vars.Variables.SetWithMode | src/vars.c:513-520 | the same for a valid storage name |
| Vars.Variables.SetAssignment | src/vars.c:528-555 | an assignment keeps the export mark, and exports `PATH` and everything under `allexport` |
| Vars.Variables.SetAssignmentLong | src/vars.c:557-608 | assigning a number is assigning its decimal text |
| Vars.Variables.MarkExported | src/vars.c:610-628 | a variable is marked, or made empty and marked, and the environment cache is dropped |
| Vars.Variables.MarkReadonly | src/vars.c:660-682 | a variable is marked read-only, with a value if one is given and it was writable |
| Vars.Variables.Unset | src/vars.c:630-658 | a writable variable is taken out, the others keep their order, and no cache refers to it |
| Vars.Variables.GetLong | src/vars.c:484-506 | the remembered number is what the text reads as; unset and empty are no number, other text is zero |
| Vars.Variables.BuildEnvp | src/vars.c:684-728 | the environment, cached or not, is the export texts of the exported variables in iteration order |
| Vars.NumberReadsBack | src/vars.c:557-608 | a number that is assigned is read back |
| Vars.NumbersAreRead | src/vars.c:484-506 | reading a variable as a number gives nothing if it is unset or empty, 0 for a word, and the number that octal or hexadecimal text stands for |
| Vars.EnvironmentLines | src/vars.c:684-728 | the environment has one line for each exported variable, name, `=` and value, in the order of the variables, without the notes the shell keeps for itself |
| Vars.AfterPut | src/vars.c:328-361 | an assignment keeps the variable's place, or takes the last one, keeps a read-only mark, and touches no other variable |
| TempAssign.IsAssignmentWord | src/simple_command.c:845-861 | a word is an assignment if and only if a valid name and `=` are in front |
| TempAssign.CountAssignments | src/simple_command.c:249-253 | the words in front of a command that are assignments, up to the first that is not |
| TempAssign.ApplyTemporary | src/simple_command.c:1233-1280 | the assignments before a command change the store as specified; a refused one undoes those before it and tells a shell that is not interactive to exit |
| TempAssign.RestoreTemporary | src/simple_command.c:1212-1231 | the saved assignments are undone, the last one first |
| TempAssign.UndoesOne | src/simple_command.c:1251-1263 | undoing one assignment gives back value, marks and order |
| TempAssign.TemporaryIsTemporary | src/simple_command.c:1212-1280 | for every store and all assignment words, setting and undoing gives back the store as it was; they are refused if and only if one of the variables is read-only, and then the store is as it was |
| TempAssign.CommandSees | src/simple_command.c:1233-1280 | what a command sees of assignment words that are not refused: each variable they assign is exported and holds the text behind the `=` of the last word for it, which is a line of the environment, and every other variable is what it was |
| Redirect.Process.FdBackupSave | src/redir.c:69-96 | a descriptor is saved once, above nine, or noted as closed |
| Redirect.Process.FdBackupRestore | src/redir.c:98-120 | saved descriptors are put back in reverse and the copies closed |
| Redirect.Process.ApplyOneRedirection | src/redir.c:423-508 | a redirection changes the target and nothing else, or fails and changes nothing |
| Redirect.Process.ApplyRedirections | src/redir.c:510-530 | redirections are saved and applied in order up to the first failure |
| Redirect.RestoreIsExact | src/redir.c:98-120 | restoring gives back the very table there was, with a failure anywhere, and leaves no copy behind, for every list of redirections none of which takes effect on a descriptor that has been saved and taken for a copy since |
| Redirect.TargetForgotten | src/redir.c:98-120 | behind such a list, whatever becomes of the redirected descriptors that hold no copy makes no difference to the restored table |
| Redirect.ClosedForGoodIsUntaken | src/redir.c:69-96 | no descriptor is taken in that way if none from ten on is redirected again after being closed |
| Redirect.TakenIsLost | src/redir.c:98-120 | behind such a list, making a descriptor that has been saved and taken since refer to anything but the copy it holds is never undone |
| Redirect.TargetsFromTenCollide | src/redir.c:69-96 | concrete redirections that close descriptor ten and redirect it again, after which descriptor 3 comes back as another file |
| Redirect.LastRedirectionDecides | src/redir.c:423-530 | redirections that all succeed leave each of the first ten descriptors as the last one of it says: the file opened, what the source referred to at that point, open in the right mode, or closed |
| Redirect.OthersStay | src/redir.c:510-530 | a descriptor below ten that no redirection is of is left alone, whether they succeed or not |
| Redirect.NextSucceeds | src/redir.c:423-530 | behind redirections that have succeeded, one that the system does not refuse succeeds too |
| Getopts.Builtin.Run | src/builtins/regular.c:1659-1840 | one call changes variables and static state as specified, read-only variables included |
| Getopts.Builtin.FindLetter | src/builtins/regular.c:1712-1741 | the next option letter, or the end of the options, from any position |
| Getopts.Builtin.ReadOptindVar | src/builtins/regular.c:1641-1657 | the position is read from the text of the variable, and anything odd counts as 1 |
| Getopts.ScanIsFirst | src/builtins/regular.c:1712-1816 | one scan takes the first of the options that are left, or finds that only operands are |
| Getopts.OptindReadsBack | src/builtins/regular.c:1641-1657 | the position survives being kept as text |
| Getopts.CallsEnumerateOptions | src/builtins/regular.c:1697-1839 | repeated calls from a fresh position enumerate exactly the options of the argument list, name and argument each, and then end with OPTIND at the first operand |
| GetoptsLaws.LettersAreDeclared | src/builtins/regular.c:1709-1775 | the letters of an option string are those declared, and take an argument as declared; a colon in front asks for silent mode and is nothing more |
| GetoptsLaws.ArgumentsReadBack | src/builtins/regular.c:1712-1816 | options are read back from how they are written: one by one or behind one dash, arguments in the same word or the next, and operands behind `--` or from the first word that is no option |
| GetoptsLaws.OddLettersAreReported | src/builtins/regular.c:1743-1800 | letters that are not declared and missing arguments are reported by `?` or `:` and by the letter, as silent mode asks |
| GetoptsLaws.OddPositionIsFirst | src/builtins/regular.c:1641-1657 | a position that is unset, empty, 0 or a word is the first one |
| GetoptsLaws.ChangesRestart | src/builtins/regular.c:1697-1707 | a call goes on inside an argument only with the option string and the position that the last one left |
| Heredoc.Tracker.ConsumeLine | src/shell.c:292-309 | a line moves the tracker to the next delimiter exactly when it is the one awaited |
| Heredoc.Tracker.ConsumeExistingBody | src/shell.c:311-343 | the tracker takes all lines of a buffer, the unfinished one included |
| Heredoc.HeredocNeedsMoreInput | src/shell.c:603-658 | the rescan wants more exactly when some delimiter is not found in its turn |
| Heredoc.ConsumePendingHeredocs | src/parser.c:1290-1368 | the collector succeeds as specified, with the bodies and the position behind them |
| Heredoc.LinesAreText | src/shell.c:2254-2262 | lines that arrive one by one bring the tracker to where all of them at once do, up to the empty line seen behind the last newline |
| Heredoc.RescanIsTracker | src/shell.c:588-659 | where the last delimiter is not empty, the rescan is complete if and only if the tracker has seen every delimiter |
| Heredoc.CollectorIsRescan | src/parser.c:1290-1368 | where the last delimiter is not empty, the collector succeeds if and only if the rescan is complete |
| Heredoc.ScannersAgree | src/shell.c:275-343 | the three scanners agree on every text if and only if there is no delimiter, or the last is not empty, or some delimiter is one that no line can match |
| Heredoc.EmptyLastDiffers | src/parser.c:1315-1318 | for every other list of delimiters, a text on which the rescan is complete and the collector fails |
| Heredoc.CollectorKeepsText | src/parser.c:1309-1357 | without tab stripping, the bodies and their delimiter lines are the text consumed, up to a newline missing at its end |
| Heredoc.BodyIsLines | src/parser.c:1290-1368 | the body of a here-document is its lines up to the one that is the delimiter, as they are |
| Heredoc.BodyIsLinesWithoutTabs | src/parser.c:1290-1368 | with tab stripping, each line without the tabs in front of it, up to the delimiter behind any tabs |

## Left out

- Arithmetic: `set -u` (an unset name leaves its token unconsumed), and the error messages. The eight strict levels
  share one method with the level as a parameter.
- Control flow: pending traps, functions, `case`, pipelines of more than one stage, subshells, brace groups. Simple
  commands, word expansion, binding the loop variable and the redirections of compound commands are parameters of the
  model.
- ControlRefines.FlagsRefine: is for runs whose conditions do not break, because on the others the code differs; what
  happens there is `ControlLevels.BreakingTest` and `ControlLevels.LevelsConserved`.
- ControlRefines.OverSurvives: the same.
- ControlRefines.PendingIffOver: the same; for all runs see `ControlLevels.PendingIffUncounted`.
- Shell.Interpreter.ExecuteNode: covers lists, and-or lists, negation, `if`, loops, redirected compound commands and,
  as a parameter, simple commands; the other kinds of node are left out.
- Shell.Interpreter.RunSequence: pending traps between items are left out, because signals are.
- Shell.Interpreter.RunRedirected: what setting and undoing redirections does is `Redirect`, not part of this state.
- Shell.Interpreter.RunIf: redirections on the command are `Shell.Interpreter.RunRedirected` around it.
- Shell.Interpreter.RunLoop: the same, and pending traps are left out.
- Shell.Interpreter.RunFor: the same; where the words of the list come from, and why they may fail, is a parameter.
- Command parser: the core language has blanks, `;`, `&`, bars, parentheses, `!`, and words of any characters that no
  scanner treats specially. Quotes, substitutions, comments, braces, redirections, newlines, reserved words and
  function definitions are outside it: the model answers `Unmodelled` there. In the core language the scanners' keyword
  counters stay zero and comment, quote and here-document handling never applies, so these are not modelled. Source
  spans of nodes are not modelled.
- ShellRoundTrip.ParseUndoesSpelling: covers words that are not reserved words, also as arguments, where the shell itself
  would take them.
- ShellRefusals.NothingInFront: a bar as the very last character is no operator to the code, which takes it for a word.
- Aliases: the ends of quotes and substitutions inside a word are found by functions rather than by loops; memory
  management and the failure of an allocation are left out.
- AliasQuote.LexerSplitWords: the ends of substitutions are found by functions; line numbers of errors are left out.
- AliasQuote.ExpandQuote: only quote removal is modelled, not parameters, substitutions, tildes and assignments; values
  with the byte that separates the positional parameters are outside it.
- Field splitting: raw text that contains marker bytes, and quoted text that contains the separator byte.
- Arena: `malloc` is the address it answers, with the promise that it is aligned and apart from all blocks; sizes so
  large that `size_t` overflows, heap mode without an arena, and the registry of several arenas are left out.
- ArenaReplay.ReplayAfterRewind: leaves out runs that take recycled blocks out of their order behind a nested scope;
  some of those are replayed all the same, by coincidence of sizes.
- Variables: importing the environment at start, the path cache, and the prompt-process markers beyond their exclusion
  from the environment. Temporary assignments are undone right behind being made; what the command does to the
  variables in between is not modelled.
- Redirections: opening files, here-document contents and `noclobber` are answers of the system.
- Redirect.Process.FdBackupRestore: `dup2` from an open copy is taken to succeed.
- Redirect.TakenIsLost: is about making the descriptor refer to something else; closing it loses the copy too, but the
  table can then still come back if the descriptor that was copied happens to refer to the same file already.
- AliasRewrite.BlankValueReachesNextWord: is about the scan at that word, not about how the value brings it there.
- AliasLaws.ExpandsExactly: leaves out texts with `for` and `case` in command position, whose own words are looked at in
  `AliasLaws.ForExpandsItsBody` and `AliasLaws.CaseExpandsItsClause`.
- ControlLaws.PlainListEnds: is for commands that leave `errexit` and its mark alone, do not exit and assign loop
  variables without an error; pipelines of several stages reset the mark and are a parameter of the model.
- ControlLaws.MarkedNeverEnds: the same.
- Redirect.LastRedirectionDecides: says nothing of descriptors from ten on, where copies are kept.
- Getopts.Builtin.Run: the position inside an argument must lie inside that argument, which the code relies on between
  calls with the same arguments; error messages are left out.
- Getopts.CallsEnumerateOptions: is for a name other than OPTIND and OPTARG and for writable variables.
- Here-documents: finding the delimiters in the command text, and expanding the bodies.
- Process and terminal work, signals, prompts, tracing, `printf`, startup files, `glob`, `fnmatch`, user names: decided by
  the operating system or by tables.
- `umask`, `case` fall-through, brace groups and the legacy text execution: they would add members but no harder
  property.
