# Verified model of iopmod

iopmod is a set of modules and tools for the input/output processor (IOP) of the
PlayStation 2. This project models five of its parts and proves what they are for.
`dafny verify dfyconfig.toml` checks all of it.

**C lexer** (`lexer*.dfy`, for `tool/lexc.c`). The scanning loop of
`lexc_next_any_token` is a method proved against the function `Lexeme`. The laws are
about that function: longest match against a grammar that knows nothing of states,
tiling of the input, one character of lookahead, the round trip through printing, and
positions that do not depend on where tokens were cut.

**Symbol table compiler** (`symc_*.dfy`, `symtab_*.dfy`, for `tool/iopmod-symc.c` and
`tool/symtab.c`). Reading, filling, ordering, printing, macro expansion, the iterators
and the lookups are methods and functions of their own. The main result goes through
all of them: the flat array answers every library name and index as the headers,
one or several, declare, told by where in the headers each declaration stands.

**Formatter and 64-bit division** (`division.dfy`, `format*.dfy`, for
`builtin/vsnprintf.c` and `builtin/__udivmoddi4.c`). `Vsnprintf` writes the caller's
array through indices that may run apart from the count. It is proved against the
unlimited output, and that against an independent meaning of directives. Printed
arguments are read back, and integer conversions are compared with section 7.21.6.1 of
ISO C11: they print its text exactly unless a stated condition on flags, width,
precision and value holds.

**Cascaded interrupts and relay** (`irq_*.dfy`, for `module/irqrelay.c`,
`builtin/spd-irq.c`, `builtin/interrupt.c`, `module/irq.c` and
`include/iopmod/bits.h`). The static tables are arrays of a class whose methods are
proved against one state-machine step each. The laws hold over every run: the relay
table is a partial map of capacity 16, the SPD use count, exact dispatch, and delivery
from the interrupt to the message for main.

**ATA scatter-gather** (`ata*.dfy`, for `module/ata.c`). The nested loops over list
entries, the 16 KiB buffer and the bounce buffer are methods of a class proved against
the ideal stream of messages, and that stream rebuilds the disk in main memory.

## Where the code differs from what one would expect

The model does what the code does.

- `/*/` is a complete comment; otherwise block comments are those of section 6.4.9 of
  ISO C11 that do not begin so (`LexerGrammar.BlockCommentsExactly`). A character that no
  token starts with yields the same empty error token for ever
  (`LexerLaws.StuckTokens`); the loops over declarations end if and only if the input
  has none where a token starts (`LexerCursor.DeclarationsEndExactly`).
- `%i` of the token matcher is assigned before the rest of the format is compared, so
  `id_(4 x) f()` declares `f` with index 4 (`SymcHeaders.UnclosedIndex`).
- An empty declaration `;;` swallows the declaration after it. Nothing is lost if and
  only if every declaration has an even number of empty ones directly before it
  (`SymcHeaders.NothingLostExactly`).
- `symtab_next_module` steps one row behind the header it found, so some modules
  without libraries are not visited. `SymcMeaning.ModulesVisited` says which, and that
  all are visited if and only if every module after the first has a library.
- `function_index_cmp` never answers with a negative number. Ordering relies only on
  qsort returning a permutation in which nothing earlier compares greater.
- Integer conversions differ from section 7.21.6.1 of ISO C11 if and only if zero is
  printed with precision zero (`%.0d` of 0 is `0`), zero is printed with `#x` (`0x0`),
  `+` is given for an unsigned conversion, a space is and the padding does not hide it,
  or the flag `0` meets a precision with room for padding
  (`FormatStandard.ConvertsExactly`, with an input for each).
- A digit right behind `.*` with a negative argument makes a precision below -1, with
  which the copying loop of a string conversion does not end
  (`FormatSpec.InsaneFormat`). `FormatSpec.Sane` can be evaluated before the call; it
  holds if and only if every such loop that the parser reaches ends
  (`FormatSane.SaneExactly`), and it is the precondition of `Format.Vsnprintf`.
- The use count of SPD lines stays one too high after a failed release of DEV9, which
  then is never released again (`IrqLaws.SurplusExactly`, `IrqLaws.SurplusStays`). If
  the line was the relay's, its slot is lost: it can be neither released nor requested
  again (`IrqLaws.LostSlotAnswers`). Every set slot has a handler throughout a run if
  and only if no step of it loses one (`IrqLaws.RunServedExactly`).
- The first SPD line claimed switches DEV9 on, also if a caller had switched it off
  (`IrqDelivery.FirstClaimSwitchesOn`); switched off later it holds back every SPD line
  (`IrqDelivery.SwitchedOffLoses`).
- Errors on SPD lines are translated twice, which makes any IOP error EINVAL
  (`IrqState.TranslatedTwice`), so that a request of an SPD line answers EINVAL also when
  a driver has DEV9 (`IrqMask.RequestAnswers`).
- A target of 32 or more is accepted for SMFLAG, which has no bit for it. The shift is
  undefined in C; the model sends a word of 32 bits without any, from which main reads
  nothing (`IrqDelivery.OwedIsRead`).
- A list of reads ends if and only if it is empty or a bounce buffer of some size was
  announced (`AtaBounce.ListEndsExactly`), and its pieces stay inside the buffers if and
  only if that is of whole units of 16 bytes or takes 16 KiB in one piece
  (`AtaBounce.FitExactly`).
- Sizes that are not multiples of 8 lose the disk bytes up to the next multiple
  (`AtaLaws.SlicesConsecutive`).

## Model

| member | source | states |
|---|---|---|
| `Division.LeftJustify` | builtin/__udivmoddi4.c:12-16 | the first loop ends with the top bit set and the denominator times `qbit`, a power of two, so no shift lost a bit |
| `Division.DividingStep` | builtin/__udivmoddi4.c:18-26 | one turn keeps num = quot·den + rest, with the shifted denominator equal to den times `qbit` at every turn |
| `Division.UDivMod` | builtin/__udivmoddi4.c:5-32 | terminates for all 64-bit operands with num = quot·den + rem and rem < den; for den = 0 the quotient is 0 and the remainder is not written |
| `Division.QuotientIsUnique` | builtin/__udivmoddi4.c:5-32 | that contract determines quotient and remainder: they are those of integer division |
| `FormatNumber.GroupLength` | builtin/vsnprintf.c:85-93 | the length computed before generating, digits plus (digits - 1) / tickskip, is the length of the grouped number |
| `FormatNumber.GeneratorGroups` | builtin/vsnprintf.c:139-155 | the order of the right-to-left loop, separator before digit when none of the group is left, is grouping from the right |
| `FormatNumber.SeparatorPositions` | builtin/vsnprintf.c:133-155 | separators stand exactly between groups of tickskip digits counted from the right, and dropping them gives the digits back |
| `FormatNumber.PrintedNumberReadsBack` | builtin/vsnprintf.c:42-164 | for every 64-bit value, base, precision, width and flags, reading the field skips padding, prefix and separators and gives sign and magnitude of the value |
| `FormatSpec.SaneFormats` | builtin/vsnprintf.c:249-260 | a format in which no digit stands right behind a `*` reaches no string conversion with a precision below -1, whatever the arguments |
| `FormatSpec.InsaneFormat` | builtin/vsnprintf.c:249-260 | `%.*5s` with the argument -1 does reach one |
| `FormatSane.CopyEndsExactly` | builtin/vsnprintf.c:422-425 | the loop counting down from the length reaches zero if and only if the length is not negative |
| `FormatSane.CopiedNegative` | builtin/vsnprintf.c:409-425 | the copying loop of a conversion ends if and only if its precision is -1 or more |
| `FormatSane.SaneExactly` | builtin/vsnprintf.c:190-434 | a format with its arguments is sane if and only if the copying loop of every string conversion that the parser reaches ends |
| `FormatSpec.Turn` | builtin/vsnprintf.c:204-283 | a turn that processes its character again goes to a later parser state, so `p--` cannot loop |
| `FormatSpec.Unsigned` | builtin/vsnprintf.c:353-382 | congruent to the argument modulo the size of the type the rank selects, and below it: 2^8, 2^16, 2^32, 2^32 or 2^64, from char to long long |
| `FormatSpec.Signed` | builtin/vsnprintf.c:308-338 | read as a signed 64-bit number it is congruent to the argument modulo one of these sizes, and in the range of the signed type of the size |
| `FormatSpec.ClampRank` | builtin/vsnprintf.c:290-294 | nearer to the rank asked for than any other known rank |
| `Format.Emit` | builtin/vsnprintf.c:40 | one character more of output, stored if it fits; write pointer and count agree as long as the output fits |
| `Format.EmitPadding` | builtin/vsnprintf.c:104-131 | padding down to the limit, on any side, under truncation |
| `Format.EmitString` | builtin/vsnprintf.c:422-425 | the string follows the output so far, under truncation |
| `Format.CountDigits` | builtin/vsnprintf.c:65-70 | the measuring loop counts the digits of the value, none for 0 |
| `Format.GeneratorStep` | builtin/vsnprintf.c:140-155 | a turn of the generator writes the next character to the left of the grouped number, a separator when it is due |
| `Format.GenerateDigit` | builtin/vsnprintf.c:140-155 | the same turn on the buffer, storing only what lies below the capacity |
| `Format.GenerateNumber` | builtin/vsnprintf.c:139-155 | the right-to-left loop ends exactly at the field's start and leaves the whole grouped number there, as far as it fits |
| `Format.StoredTwice` | builtin/vsnprintf.c:385-391 | a field formatted into the room that is left, which is 0 once the output no longer fits, extends the truncated output |
| `Format.Measure` | builtin/vsnprintf.c:59-93 | digits, separators and total length are those of the number to print |
| `Format.EmitNumber` | builtin/vsnprintf.c:133-155 | pointer and count jump over the field, which then holds the number as far as it fits |
| `Format.EmitField` | builtin/vsnprintf.c:104-163 | padding, sign, prefix, number and padding make up the laid-out field |
| `Format.FormatInt` | builtin/vsnprintf.c:42-164 | returns the length of the unlimited field and stores exactly its part that fits |
| `Format.FormatString` | builtin/vsnprintf.c:404-434 | `%s` and `%c`: cut by the precision, padded by the width, under truncation |
| `Format.ConvertInto` | builtin/vsnprintf.c:296-475 | each conversion letter appends what it means and leaves the arguments it did not take |
| `Format.ParsingStep` | builtin/vsnprintf.c:190-283 | output so far followed by output to come stays the unlimited output at every turn of the parser |
| `Format.Terminate` | builtin/vsnprintf.c:479-483 | NUL goes right behind the output, or over the last place if it does not fit; nothing else changes |
| `Format.Vsnprintf` | builtin/vsnprintf.c:166-486 | for every capacity the count is that of the unlimited output, its first min(count, n - 1) characters are stored with NUL behind them, and nothing at or past n is touched |
| `FormatLaws.FlagSection` | builtin/vsnprintf.c:204-229 | any sequence of flag characters is read as the set of its flags |
| `FormatLaws.WidthSection` | builtin/vsnprintf.c:231-247 | a width is none, a decimal number, or taken from an argument, whose sign sets left justification |
| `FormatLaws.PrecSection` | builtin/vsnprintf.c:240-260 | a precision likewise; a negative argument means none |
| `FormatLaws.ModifierSection` | builtin/vsnprintf.c:262-283 | length modifiers accumulate to one rank |
| `FormatLaws.DirectiveMeaning` | builtin/vsnprintf.c:190-477 | a conversion specification, read character by character, prints what its flags, width, precision and length denote, and goes on behind it |
| `FormatLaws.FormatMeaning` | builtin/vsnprintf.c:166-486 | the parser's output for any sequence of texts and directives is the concatenation of their meanings |
| `FormatStandard.SameDigits` | builtin/vsnprintf.c:65-83 | the digits are those of the standard, shortest digits with zeros up to the precision and `#o`'s zero in front, but for zero with precision zero |
| `FormatStandard.StandardExactly` | builtin/vsnprintf.c:42-164 | for every value, base, width, precision and flags but `'` the text is that of section 7.21.6.1 of ISO C11 if and only if none of five conditions holds |
| `FormatStandard.ConvertsExactly` | builtin/vsnprintf.c:308-391 | the same for the conversions d, i, o, u, x and X of any argument |
| `FormatStandard.PrecisionZero` | builtin/vsnprintf.c:79-83 | `%.0d` of 0 prints `0`, the standard nothing |
| `FormatStandard.PrefixedZero` | builtin/vsnprintf.c:120-123 | `%#x` of 0 prints `0x0`, the standard `0` |
| `FormatStandard.ZeroWithPrecision` | builtin/vsnprintf.c:125-131 | `%02.1d` of 7 prints `07`, the standard ` 7` |
| `FormatStandard.PlusUnsigned` | builtin/vsnprintf.c:112-118 | `%+u` of 7 prints `+7`, the standard `7` |
| `FormatStandard.SpaceUnsigned` | builtin/vsnprintf.c:112-118 | `% u` of 7 prints a space, the standard none; in `% 2u` padding makes both the same |
| `FormatTypes.UsualSizes` | builtin/vsnprintf.c:262-294 | `hh` selects a type of 8 bits, `h` of 16, none, `l`, `z` and `t` of 32, `ll`, `j`, `L` and `q` of 64 |
| `FormatTypes.ModulusIsSize` | builtin/vsnprintf.c:262-294 | for any sequence of length modifiers the size used is that of their sum |
| `FormatTypes.SignedPrints` | builtin/vsnprintf.c:308-339 | `%d` and `%i` as written, with any flags, width, precision and length: the field reads back as the argument if that is in the range of the type, else as the number it wraps around to, and output goes on behind the directive with the next argument |
| `FormatTypes.UnsignedPrints` | builtin/vsnprintf.c:340-383 | `%o`, `%u`, `%x` and `%X` likewise, read in base 8, 10 or 16, as the argument modulo the size of the type |
| `FormatTypes.IntPrints` | builtin/vsnprintf.c:325-328 | `%d` prints every i with -0x80000000 <= i < 0x80000000 |
| `FormatTypes.UnsignedIntPrints` | builtin/vsnprintf.c:367-371 | `%u` prints every i with 0 <= i < 0x100000000 |
| `FormatLaws.PointerReadsBack` | builtin/vsnprintf.c:297-306 | `%p` and `%P` read back as the address |
| `FormatTypes.AddressPrints` | builtin/vsnprintf.c:300-306 | `%p` prints `0x` and eight hexadecimal digits that read back as the address |
| `FormatTypes.NoLeadingZero` | builtin/vsnprintf.c:65-70 | the measured digits of a positive number begin with none that is zero |
| `FormatTypes.NumberCharacters` | builtin/vsnprintf.c:85-155 | a number holds digits of the case asked for and, if and only if the flag asks for them, underscores: behind every four digits in base 16, behind every three in another, counted from the right |
| `FormatTypes.LetterCase` | builtin/vsnprintf.c:297-350 | `X` and `P` ask for the upper case, the other conversions of numbers for the lower |
| `FormatTypes.StringPrints` | builtin/vsnprintf.c:398-434 | `%s` as written prints its argument, `(null)` for none, cut by the precision and padded on the side and with the character its flags say |
| `FormatTypes.CharacterPrints` | builtin/vsnprintf.c:393-434 | `%c` as written prints the character of its argument in the same way |
| `FormatTypes.CountPrints` | builtin/vsnprintf.c:436-469 | `%n` prints nothing and takes its argument |
| `FormatTypes.OtherLetterPrints` | builtin/vsnprintf.c:471-473 | any other letter, `%` among them, prints itself and takes no argument |
| `FormatTypes.PercentPrints` | builtin/vsnprintf.c:471-473 | `%%` prints one percent sign |
| `Lexer.AdvanceToken` | tool/lexc.c:127-144 | moves to the end of the token, with line and column those of all text before it |
| `Lexer.NextAnyToken` | tool/lexc.c:146-307 | the next token starts where the last ended; its type and length are those of `Lexeme` on the remaining input |
| `Lexer.NextToken` | tool/lexc.c:309-318 | terminates at the first token that is neither whitespace nor comment, also when enumeration is stuck |
| `Lexer.FirstToken` | tool/lexc.c:320-342 | the first significant token of the text, from line 1 and column 1 |
| `Lexer.LexemeResult` | tool/lexc.c:146-307 | the empty token comes exactly at the end, an invalid character exactly where no token starts; only these have no length, and the other errors reach the end of input |
| `LexerLaws.TokensTile` | tool/lexc.c:127-162 | token texts are non-empty and join to the whole input, unless enumeration is stuck at an invalid character, which then is where they end |
| `LexerLaws.StuckTokens` | tool/lexc.c:289-318 | at such a character every later call returns the same empty error |
| `LexerLaws.OneCharacterLookahead` | tool/lexc.c:146-306 | inputs that agree through one character past a token's end have the same token there |
| `LexerLaws.LexingUndoesPrinting` | tool/lexc.c:146-318 | the significant tokens of a clean input, joined with single spaces, lex to the same types and texts, an unterminated last one included |
| `LexerLaws.ScanOwnText` | tool/lexc.c:146-307 | a significant token's text, alone or before a space, lexes to that token |
| `LexerLaws.NextStop` | tool/lexc.c:119-125 | the next column that is 1 modulo 8, at most 8 columns on |
| `LexerLaws.TabStop` | tool/lexc.c:119-125 | a tab leads to that column |
| `LexerLaws.PositionIsFold` | tool/lexc.c:119-144 | line is 1 plus the newlines before; column is 1 plus one for each character of the line so far, a tab going to the next stop; however earlier text was cut |
| `LexerGrammar.SameClasses` | tool/lexc.c:13-93 | the character classes are, for every character, those the grammar lists: ten digits, 52 letters with the underscore and bytes from 128 on, digits of base 16 with `x` and `X`, the exponent letters `eEpP`, six white-space characters, one of them the newline |
| `LexerGrammar.RunSound` | tool/lexc.c:146-307 | whatever state the scanner reaches, the text read is as the grammar describes for that state |
| `LexerGrammar.RunComplete` | tool/lexc.c:146-307 | and every text the grammar describes for a state reaches it |
| `LexerGrammar.AcceptsLanguages` | tool/lexc.c:146-307 | the scanner accepts exactly the lexemes of each token type, which are given over those lists of characters |
| `LexerGrammar.LongestMatch` | tool/lexc.c:146-307 | the first token is a lexeme of its type and no other, and no longer prefix of the input is a lexeme of any type; errors are unterminated text or stand where nothing starts |
| `LexerGrammar.BlockCommentsExactly` | tool/lexc.c:206-215 | closed block comments are those of section 6.4.9 of ISO C11 that do not begin with the short one, and the short one |
| `LexerGrammar.ShortComment` | tool/lexc.c:210-213 | whatever follows, the short one ends the token |
| `LexerCursor.ComesToRest` | tool/lexc.c:309-318 | enumeration reaches the end of a clean input, and otherwise a character no token starts with |
| `LexerCursor.DeclarationsEndExactly` | tool/iopmod-symc.c:40-49 | the loop over a declaration's tokens ends from wherever it begins, if and only if the input is clean |
| `SymcRead.Scanf` | tool/iopmod-symc.c:118-146 | succeeds exactly if the stream goes on as the format says, and assigns arguments even when the match fails later |
| `SymcRead.CaptureIndex` | tool/iopmod-symc.c:132-136 | matching `id_(%i)` assigns the index exactly if the first three tokens match, whatever the fourth is |
| `SymcInteger.IntegerMeaning` | tool/iopmod-symc.c:96-116 | a token has a value if and only if it has 1 to 16 characters that are all digits behind its prefix, `0x` or `0X` for base 16, `0` for base 8, none for base 10; it is the sum of the digits by the powers of their places, modulo 2^32 |
| `SymcInteger.DigitExactly` | tool/iopmod-symc.c:96-116 | a digit is worth its place among the sixteen digits, in either case |
| `SymcInteger.HexadecimalExample` | tool/iopmod-symc.c:96-116 | `0x1F` is 31 |
| `SymcInteger.MalformedExamples` | tool/iopmod-symc.c:96-116 | `08` and `0x` have no value |
| `SymcRead.NextDeclaration` | tool/iopmod-symc.c:51-58 | the next declaration is behind the first semicolon after the current token |
| `SymcRead.FindIndex` | tool/iopmod-symc.c:241-246 | the index of the first `id_(%i)` of the declaration, failing that the last index assigned by a match that failed at its parenthesis, or none |
| `SymcRead.FindName` | tool/iopmod-symc.c:248-255 | the first token before a parenthesis that is not `id_` or `alias_`, failing that the last one tried |
| `SymcRead.Symtab.ReadAliases` | tool/iopmod-symc.c:259-261 | appends the declaration's aliases, in textual order, to the function just added and changes nothing else |
| `SymcRead.Symtab.ReadFunction` | tool/iopmod-symc.c:236-264 | adds the function to the last library of the last module, or nothing without index or name; a malformed index is fatal |
| `SymcRead.Symtab.ReadDeclaration` | tool/iopmod-symc.c:266-300 | adds a module, a library, or a function, and nothing before the first library |
| `SymcRead.Symtab.ReadSymtab` | tool/iopmod-symc.c:302-308 | reads all declarations of the stream, one after the other, or ends fatally |
| `SymcHeaders.DeclarationRead` | tool/iopmod-symc.c:236-300 | a declaration of a described shape, in the words and punctuators of a header, is read as what it declares |
| `SymcHeaders.HeaderRead` | tool/iopmod-symc.c:302-308 | a header is read as the table its declarations describe, where an empty declaration swallows the next |
| `SymcHeaders.HeadersRead` | tool/iopmod-symc.c:704-711 | several headers are read as the table all their declarations describe, in order |
| `SymcHeaders.UnclosedIndex` | tool/iopmod-symc.c:241-246 | an index whose parenthesis is missing counts if no other `id_` comes |
| `SymcHeaders.NothingLostExactly` | tool/iopmod-symc.c:40-58 | what is heard is all that is not empty, if and only if every declaration has an even number of empty ones directly before it |
| `SymcHeaders.BlanksSwallow` | tool/iopmod-symc.c:51-58 | one empty declaration swallows the one behind it, two swallow nothing |
| `SymcHeaders.AllHeard` | tool/iopmod-symc.c:40-58 | without empty declarations none is lost |
| `SymcDescribed.TableDescribed` | tool/iopmod-symc.c:197-234 | the table read has a module for each `MODULE_ID`, in order, with its name and version; in it a library for each `LIBRARY_ID` up to the next `MODULE_ID`, with its name and version; in that a function for each declaration with an index up to the next `LIBRARY_ID` or `MODULE_ID`, with name, index and aliases; what stands before is dropped |
| `SymcDescribed.FatalExactly` | tool/iopmod-symc.c:96-116 | reading fails if and only if a function inside a library has a malformed index |
| `SymcDescribed.FoundBehind` | tool/symtab.c:364-373 | the first library of a name in that table is at the first place where a library of the name is declared inside a module, with the last module declared before |
| `SymcTable.FunctionForIndex` | tool/iopmod-symc.c:544-551 | finds a function of the index exactly if there is one |
| `SymcTable.FillLibrary` | tool/iopmod-symc.c:553-568 | appends an unnamed function for each gap below the largest index |
| `SymcTable.FillModule` | tool/iopmod-symc.c:570-574 | fills every library of the module and keeps everything else |
| `SymcTable.FillSymtab` | tool/iopmod-symc.c:576-580 | fills every module in place |
| `SymcTable.FillGaps` | tool/iopmod-symc.c:553-568 | filling keeps the declared functions and adds exactly the missing indices, each once and undefined |
| `SymcTable.OrderModule` | tool/iopmod-symc.c:599-603 | orders each library that has functions |
| `SymcTable.OrderSymtab` | tool/iopmod-symc.c:605-609 | orders every module in place |
| `SymcTable.QsortExists` | tool/iopmod-symc.c:582-597 | the contract asked of qsort with a comparison that is never negative can be met, by an insertion sort |
| `SymcTable.DenseTable` | tool/iopmod-symc.c:544-597 | for distinct indices, filled and ordered tables have max + 1 entries, entry i has index i, declared ones are kept and exactly the missing ones are undefined |
| `SymcPrint.PrintFunction` | tool/iopmod-symc.c:367-380 | a function's bracketed statements, its aliases inside; `FU` for an undefined one |
| `SymcPrint.PrintLibrary` | tool/iopmod-symc.c:382-391 | a library's statements around those of its functions |
| `SymcPrint.PrintModule` | tool/iopmod-symc.c:393-402 | a module's statements around those of its libraries |
| `SymcPrint.PrintSymtab` | tool/iopmod-symc.c:470-479 | the statements of all modules in order |
| `SymcPrint.TableExpands` | tool/symtab.c:21-118 | expanding the printed statements gives the rows of the nested table in order, undefined functions left out, and the sentinel |
| `SymtabIndex.NextModule` | tool/symtab.c:197-207 | the module iterator stays inside the array and moves on until the sentinel |
| `SymtabIndex.NextLibrary` | tool/symtab.c:219-233 | the library iterator stays inside the array and moves on until the sentinel |
| `SymtabIndex.NextFunction` | tool/symtab.c:241-254 | the function iterator stays inside the array and moves on inside a library |
| `SymtabIndex.FirstAlias` | tool/symtab.c:256-266 | stays inside the array: the row it reads ahead exists |
| `SymtabIndex.ModuleCount` | tool/symtab.c:131-140 | the number of modules the iterator visits |
| `SymtabIndex.LibraryCount` | tool/symtab.c:142-151 | the number of libraries the iterator visits |
| `SymtabIndex.LibraryForName` | tool/symtab.c:364-373 | the first library visited that has the name, or none |
| `SymtabIndex.FuncSymbolFromIndex` | tool/symtab.c:375-387 | the loops compute the lookup that the laws are about |
| `SymtabIndex.FuncFirstAliasFromIndex` | tool/symtab.c:389-403 | likewise for the first alias |
| `SymtabNesting.LibrariesVisited` | tool/symtab.c:209-233 | over a generated array the library iterator visits each library once, in order, with its own module |
| `SymtabNesting.FunctionsVisited` | tool/symtab.c:235-254 | the function iterator visits exactly the library's named functions, no aliases, in order |
| `SymtabNesting.AliasesVisited` | tool/symtab.c:256-278 | the alias iterator visits exactly the function's aliases, in order |
| `SymcMeaning.ModulesVisited` | tool/symtab.c:177-207 | which modules the iterator visits, for every table; all of them, once and in order, if and only if every module after the first has a library |
| `SymcMeaning.LookupMeaning` | tool/symtab.c:364-403 | lookups in the generated array are lookups in the nested table it came from |
| `SymcPipeline.Compile` | tool/iopmod-symc.c:694-724 | reading all files into one table, filling, ordering, printing and expanding compute the array of the compiled table |
| `SymcPipeline.FunctionsCompile` | tool/iopmod-symc.c:553-597 | compiling a library changes no answer about its functions |
| `SymcPipeline.CompilationPreservesMeaning` | tool/symtab.c:364-403 | for all headers of the described shape with distinct indices in each library, the array answers each library name and index with the declared function and its first alias, and with nothing for anything undeclared |
| `SymcDescribed.ArrayAnswersDeclarations` | tool/symtab.c:364-403 | the same by places in the headers: for the first `LIBRARY_ID` of the name inside a module, and the one declaration with this index behind it, the answer has the name of that declaration, the index, and names and versions of that `LIBRARY_ID` and of the last `MODULE_ID` before it; the first alias likewise; without such a declaration there is no answer |
| `SymcPipeline.TableAnswers` | tool/iopmod-symc.c:553-597 | the same for every nested table with distinct indices |
| `SymcPipeline.OnlyLibrary` | tool/symtab.c:364-373 | with distinct library names the library answering is the only one of that name |
| `IrqBits.Fls` | include/iopmod/bits.h:16-44 | for every 32-bit word, 0 for 0, and otherwise the number r with 2^(r-1) <= x < 2^r |
| `IrqBits.TopBitIsUnique` | include/iopmod/bits.h:10-15 | these bounds determine the bit |
| `IrqBits.HighestBit` | builtin/spd-irq.c:78-79 | a register read as a number lies between the powers of two of its highest bit |
| `IrqBits.OnlyBit` | include/iopmod/bits.h:10-15 | 2^b has exactly the bit b |
| `IrqState.ErrnoForIopError` | include/iopmod/iop-error.h:6-59 | errors stay errors, successes and numbers beyond the IOP's stay what they are, and IOP errors become the numbers listed for them |
| `IrqState.TranslatedTwice` | builtin/spd-irq.c:114-128 | an IOP error translated once more, as on the way through an SPD line, is EINVAL |
| `IrqState.FindMap` | module/irqrelay.c:95-102 | the first set slot of the line, or none if no set slot has it |
| `IrqState.FindUnset` | module/irqrelay.c:104-111 | a slot not set, or none if all are |
| `IrqSystem.Iop.RequestDirect` | builtin/interrupt.c:22-33 | registers and then enables; a failure enables nothing |
| `IrqSystem.Iop.ReleaseDirect` | builtin/interrupt.c:45-54 | disables and then releases; a failed release leaves the line registered and disabled |
| `IrqSystem.Iop.Enable` | builtin/spd-irq.c:181-193 | sets the line's mask bit, or enables a direct line |
| `IrqSystem.Iop.Disable` | builtin/spd-irq.c:208-220 | clears the line's mask bit, or disables a direct line |
| `IrqSystem.Iop.SpdRequestIrq` | builtin/spd-irq.c:102-129 | claims, acknowledges and unmasks the line, requesting DEV9 first if the count is 0; a success clears the line in STAT and sets it in MASK |
| `IrqSystem.Iop.SpdReleaseIrq` | builtin/spd-irq.c:141-166 | masks and frees the line, releasing DEV9 if the count is 1; the count falls unless that fails; a claimed line is cleared in MASK whatever the answer, an unclaimed one left |
| `IrqSystem.Iop.RequestIrq` | module/irq.c:84-87 | a request goes to the line's own controller |
| `IrqSystem.Iop.ReleaseIrq` | module/irq.c:96-99 | a release goes to the line's own controller |
| `IrqSystem.Iop.FindMapSlot` | module/irqrelay.c:95-102 | the search loop over the table in place |
| `IrqSystem.Iop.RelayRequestMap` | module/irqrelay.c:113-153 | writes a free slot, requests the line with a pointer to that slot, and undoes the slot if that fails; over the map of targets: each refusal exactly under its condition, otherwise the mapping added or nothing changed |
| `IrqSystem.Iop.RelayRemapMap` | module/irqrelay.c:155-185 | rewrites target and way of telling in the line's slot only; over the map of targets: the mapped line updated |
| `IrqSystem.Iop.RelayReleaseMap` | module/irqrelay.c:187-210 | releases the line and clears its slot only if that succeeds; over the map of targets: the mapping removed exactly on answer 0 |
| `IrqSystem.Iop.CallBack` | module/irqrelay.c:76-93 | service_irq sends what its slot says: a command, or a bit of SMFLAG; that it is what main is owed and reads is `IrqDelivery.OwedIsSent` and `IrqDelivery.OwedIsRead` |
| `IrqSystem.Iop.TopLine` | builtin/spd-irq.c:78-79 | fls less one is the highest pending line |
| `IrqSystem.Iop.HandleSpdIrq` | builtin/spd-irq.c:71-88 | the loop terminates, indexes only existing lines, and calls the claimed pending lines in descending order after acknowledging all |
| `IrqSystem.Iop.ServeInterrupt` | builtin/interrupt.c:26-30 | an interrupt of an enabled line calls what was registered for it: the cascade's handler, the relay or a driver |
| `IrqLaws.StepInv` | module/irqrelay.c:95-210 | every call and event keeps: distinct lines of 7 bits in set slots, registered service_irq pointing at the set slot of its own line, masks of existing lines only, only DEV9 cascaded |
| `IrqLaws.RunInv` | module/irqrelay.c:95-210 | and so in every run, also when lower calls fail |
| `IrqLaws.FindMapTargets` | module/irqrelay.c:95-102 | searching the table is looking up the map |
| `IrqLaws.TargetsSize` | module/irqrelay.c:104-111 | the map is full exactly when every slot is set |
| `IrqLaws.RequestRefinesMap` | module/irqrelay.c:113-153 | -EINVAL exactly beyond 7 bits, -EBUSY exactly for a mapped line, -ENOMEM exactly for a full map, all without effect; otherwise the mapping is added or, on a failure below, nothing changes |
| `IrqLaws.RemapRefinesMap` | module/irqrelay.c:155-185 | a mapped line gets the new target and nothing else changes; -EINVAL and -ENXIO without effect otherwise |
| `IrqLaws.ReleaseRefinesMap` | module/irqrelay.c:187-210 | the mapping goes exactly if the answer is 0 |
| `IrqLaws.FailedReleaseLosesSlot` | builtin/spd-irq.c:152-165 | releasing the relay's last SPD line while intrman refuses to release DEV9 leaves the slot set and nobody registered |
| `IrqLaws.LostSlotAnswers` | module/irqrelay.c:113-210 | such a slot answers every release with -EINVAL and every request with -EBUSY, without effect |
| `IrqLaws.LostSlotStays` | module/irqrelay.c:113-210 | and stays so under every event but a driver's request of its line |
| `IrqLaws.RunLosesSlot` | builtin/spd-irq.c:152-165 | the run that requests line 46 and releases it while intrman refuses to release DEV9 loses the slot |
| `IrqLaws.ServedExactly` | module/irqrelay.c:113-210 | each step keeps a handler for every set slot if and only if it is no release that loses one: of the relay's last SPD line with DEV9 refused, or of a mapped line by someone else, unless that is refused |
| `IrqLaws.RunServedExactly` | module/irqrelay.c:113-210 | in every run that keeps the SPD law, all set slots have their handlers at all times if and only if no step is such a release |
| `IrqLaws.DispatchedLines` | builtin/spd-irq.c:71-88 | the lines called are exactly the pending, unmasked, claimed ones, each once, in descending order, with their own callbacks |
| `IrqLaws.DispatchEffect` | builtin/spd-irq.c:71-88 | dispatch acknowledges exactly what it read and changes nothing but the record of calls and messages |
| `IrqLaws.SpdUseCount` | builtin/spd-irq.c:102-166 | each step keeps: the handler is on DEV9 iff the count is positive, and the count exceeds the claimed lines by 0 or 1, growing by one exactly at a release of a last claimed line that is refused for DEV9, after which DEV9 is never released |
| `IrqLaws.UnfairBreaksLaw` | builtin/spd-irq.c:102-166 | a release of the cascaded DEV9 by anyone else, if intrman obeys it, breaks the law, so the guard of the law is exact |
| `IrqLaws.SpdLaw` | builtin/spd-irq.c:102-166 | in every run without such a release the handler is on DEV9 iff the count is positive, and the count exceeds the claimed lines by 0 or 1 |
| `IrqLaws.SurplusStays` | builtin/spd-irq.c:154-158 | once the count is one too high, at any point of such a run, it is so at the end, with DEV9 still cascaded |
| `IrqLaws.SurplusCause` | builtin/spd-irq.c:154-158 | if it is one too high, the run holds a release of a last claimed SPD line that was refused for DEV9, before which it was not |
| `IrqLaws.SurplusExactly` | builtin/spd-irq.c:154-158 | at the end of such a run the count is one too high if and only if the run holds such a release |
| `IrqMask.ReleaseMasks` | builtin/spd-irq.c:141-166 | a release of a claimed SPD line masks it and frees it, whatever intrman answers, and no other; of an unclaimed one it leaves MASK, and STAT in any case |
| `IrqMask.ClaimUnmasks` | builtin/spd-irq.c:102-129 | a claim clears the line in STAT and sets it in MASK; a refused one does nothing |
| `IrqMask.EachLineSteps` | builtin/spd-irq.c:102-220 | under every call and event each line is claimed, quiet and unmasked; or released and masked; or else masked or unmasked as it was, unless it is enabled or disabled, and pending only if it was or is raised |
| `IrqMask.FreeLineMasked` | builtin/spd-irq.c:141-220 | in every run a free SPD line is unmasked if and only if someone enabled it after it became free and nobody disabled it since |
| `IrqMask.StaleEventDropped` | builtin/spd-irq.c:119-124 | an event pending from before a line was claimed is not delivered to who claimed it: until a new one, whatever happens, a dispatch sends main what it would without the line |
| `IrqMask.RequestAnswers` | builtin/spd-irq.c:102-129 | what a request answers, in numbers: -16 for a direct line that is taken, the listed number if intrman refuses, -22 for an SPD line that is claimed or whose cascade is taken or refused |
| `IrqMask.ReleaseAnswers` | builtin/spd-irq.c:141-166 | what a release answers: -2 for a direct line that nobody holds, the listed number if intrman refuses, -22 for an SPD line that is free or whose cascade is not let go |
| `IrqDelivery.ReleaseLines` | builtin/spd-irq.c:141-166 | a release, seen from every line: a direct line is off, and free unless refused; an SPD line is masked and free, with DEV9 released along with the last one, or off if that is refused; all others are as before |
| `IrqDelivery.RelayReleaseDelivers` | module/irqrelay.c:187-210 | unless it loses its line, the relay's release of a mapped line succeeds exactly if the line is an SPD line or intrman lets go, and leaves every mapped line served and known |
| `IrqDelivery.StepDelivers` | module/irqrelay.c:113-210 | each step that is fair to the SPD module and loses no line keeps: table and callers agree on the map, every mapped line has the relay's handler, and callers know exactly which mapped lines are enabled, whether the cascade on DEV9 is, which SPD lines are claimed, and whether DEV9 is stuck |
| `IrqDelivery.RunDelivers` | module/irqrelay.c:113-210 | and so after every fair run that loses no line, whatever intrman refuses |
| `IrqDelivery.OwedIsSent` | module/irqrelay.c:80-90 | what the callback sends for a slot is a command with the target's number, or the 32-bit word whose set bits are the target's alone |
| `IrqDelivery.OwedIsRead` | module/irqrelay.c:80-90 | main reads from it the target's number, or its bit as the only one set, told the way asked for, if and only if it goes by command or is below 32 |
| `IrqDelivery.DirectDelivery` | module/irqrelay.c:76-93 | an interrupt of a mapped direct line that is enabled calls one callback and sends one message, for its latest target; one that is not sends nothing |
| `IrqDelivery.CascadedDelivery` | builtin/spd-irq.c:71-88 | after a mapped SPD line is raised and DEV9 interrupts, main gets exactly the messages owed for the pending unmasked lines, in descending order, and they are acknowledged; with DEV9 disabled nothing happens and the line stays raised |
| `IrqDelivery.OwedOnce` | builtin/spd-irq.c:78-85 | a pending mapped line adds exactly its one message to those of the others |
| `IrqDelivery.EndToEnd` | module/irqrelay.c:76-93 | after any fair run that loses no line, whatever intrman refuses, an event on a mapped line sends main one message for it if and only if the line, and for an SPD line DEV9 as well, is enabled; main reads from it the target last requested or remapped, as a command's number or as the only bit set, if and only if SMFLAG has a bit for it or it goes by command; the other messages are exactly those owed for other pending SPD lines; and callers can tell from their calls and the answers whether it comes |
| `IrqDelivery.DeliveredAlone` | module/irqrelay.c:76-93 | with nothing else pending that message, so read, is the only one, or there is none |
| `IrqDelivery.FirstClaimSwitchesOn` | builtin/spd-irq.c:113-124 | DEV9 switched off before line 46 is requested first: the line is delivered |
| `IrqDelivery.SwitchedOffLoses` | builtin/spd-irq.c:73-76 | DEV9 switched off after line 46 was requested: nothing is sent |
| `IrqDelivery.MessagesTellTargets` | module/irqrelay.c:80-90 | from the message for a target main reads that target, told that way, and no other |
| `Ata.DmaMovesAligned` | module/ata.c:249-255 | in blocks of 8 or of 128 bytes, the count register makes DMA move the least multiple of 8 that is not below the size, within the buffer |
| `Ata.PieceFits` | module/ata.c:165-185 | each piece is positive, fits the bounce buffer also when rounded up to the next multiple of 16, and is read from inside the 16 KiB buffer |
| `AtaBounce.LoopEndsExactly` | module/ata.c:163-185 | the loop over a chunk ends if and only if there is nothing to send or the bounce buffer has some size |
| `AtaBounce.ListEndsExactly` | module/ata.c:303-325 | the chunks of a list of reads all end if and only if the bounce buffer has some size or all entries are empty |
| `AtaBounce.UnannouncedNeverEnds` | module/ata.c:303-325 | a read before any bounce buffer is announced does not end |
| `AtaBounce.FitExactly` | module/ata.c:165-177 | all pieces of all chunks, rounded up to 16, stay inside both buffers if and only if the bounce buffer is of whole units of 16 or at least 16 KiB |
| `Ata.FirstChunk` | module/ata.c:301-325 | moving a chunk of an entry leaves the messages and the disk position of the rest of the list |
| `Ata.AtaDev.Direction` | module/ata.c:96-111 | afterwards the two direction registers select the direction asked for, also when the function returns at once, the UDMA bit is kept, and 3 is written to the register at 0x38 unless it does |
| `Ata.AtaDev.CmdBb` | module/ata.c:277-289 | the announced bounce buffer is used from then on |
| `Ata.AtaDev.ReadDma` | module/ata.c:239-268 | the disk's next bytes, rounded up to 8, come to the start of the buffer, the rest of which is kept |
| `Ata.AtaDev.RdBounce` | module/ata.c:161-188 | the buffer goes out in pieces up to the first failed send, whose error is the answer |
| `Ata.AtaDev.ReadChunk` | module/ata.c:270-275 | a read fills the buffer and sends it |
| `Ata.AtaDev.TransferChunk` | module/ata.c:311-324 | a chunk sends the next of the remaining messages and shortens its entry; an error skips the rest of the list |
| `Ata.AtaDev.TransferEntries` | module/ata.c:303-325 | the loop terminates; without a failure all messages are sent and every entry is used up |
| `Ata.AtaDev.SgTransfer` | module/ata.c:301-329 | the list's messages up to the first failure, then the acknowledgement tried once, last |
| `Ata.AtaDev.CmdSg` | module/ata.c:331-346 | a new list replaces the old one and is worked off from its start |
| `AtaLaws.PiecesArrive` | module/ata.c:161-188 | the pieces copy the buffer to the target, however it is cut by the bounce buffer |
| `AtaLaws.EntryArrives` | module/ata.c:301-325 | an entry of any size, cut at the buffer and at the bounce buffer, ends up as the disk's next bytes |
| `AtaLaws.ScatterGather` | module/ata.c:280-329 | for every list of targets apart from each other and the bounce buffer, each target ends up as its slice of the disk stream and memory elsewhere is unchanged |
| `AtaLaws.SlicesConsecutive` | module/ata.c:249-253 | the slices are consecutive if and only if all sizes but the last are multiples of 8 |
| `AtaLaws.PartialTransferStaysInside` | module/ata.c:179-182 | however many messages got through before a failure, memory outside targets and bounce buffer is unchanged |
| `AtaLaws.ListSuits` | module/ata.c:173-177 | every message of every list goes to the bounce buffer, with data of whole units of 16 bytes that fit there, less than one unit more than the piece |
| `AtaLaws.ArrivedWhenAcknowledged` | module/ata.c:291-329 | where no send fails there is exactly one acknowledgement, last, and when it arrives every target holds its slice |

## Left out

- `%n` takes its argument but its store is not modelled; `va_list` mechanics are not: arguments are a sequence of tagged values, and a missing or differently typed one, undefined in C, reads as 0 or null.
- Overflow of `int` in width, precision and count: these are mathematical integers.
- Format.Vsnprintf: does not cover formats that reach a string conversion with a precision below -1, because the source's loop then runs out of the string.
- The symbol table is an object whose list of modules is updated; modules, libraries and functions inside it are values, so `xrealloc` and pointers into the nested arrays are not modelled.
- Formats of the token matcher are given as lists of patterns; the branches for a malformed format string are not modelled, as no caller has one.
- `strtol`, `qsort` and the C preprocessor: integer tokens have values by a function that accepts what `strtol` with base 0 accepts in at most 16 characters, qsort is a parameter with a contract, and the macros are a function from statements to rows.
- `strtol` saturates where `long` has 32 bits; indices are as with 64 bits.
- SymcRead.Symtab.ReadSymtab: takes the token stream of a header all of whose characters start tokens, as the loops of the source end for no other. Indices are natural numbers below 2^32; conversion of larger ones to negative `int` is not modelled.
- The statements are values; how `fprintf` writes them as text, and that the C compiler reads them back, is not modelled. Neither are the options for one module (`-m`), files, temporary files and memory exhaustion.
- `symtab_iterate_module_ordered`, `symtab_iterate_library_ordered` and the formatting widths, which would add only easy members.
- `tool/elf.c`, `tool/irx.c`, `tool/iopmod-link.c` and `tool/iopmod-info.c`: scans over raw files.
- intrman is a map from line to handler. A request fails for a registered line, a release for an unregistered one, and both also as the answer parameter says, without effect on the registration. What intrman does with `IRQ_MODE_MORE` is not modelled.
- Null callbacks are not modelled: every request passes one.
- Calls are atomic steps; interleavings inside a call are not modelled, nor is `irq_save`.
- The dispatcher `irqrelay_service_rpc` with its checks of message sizes, RPC threads and module initialisation.
- Of the ATA registers those that ata_direction writes are modelled; what the device puts into the one at 0x38 is not, nor is the DMA enable bit, which is set for the duration of a transfer.
- STAT and MASK are sets of bits; other registers, `iowr16` truncation, and the gamepad and dev9 modules are not modelled. Callbacks of drivers are recorded and leave the tables alone.
- Whether main receives a relay's RPC command (`sif_cmd` can fail): the message is recorded as sent.
- DMA is one step without busy-waiting; semaphores, threads, the retry loop of `sif_cmd_opt_data` and the direct DMA path that is compiled out are not modelled. What each send answers is a parameter, and a failed send delivers nothing. That is more general than the code: `sif_cmd_opt_data` refuses only payloads above 96 bytes, and these have 12 and 0, so there every send succeeds.
- Ata.AtaDev.CmdSg: takes lists of at most 12 entries, as many as a packet holds, and a list with something to read only with a bounce buffer with which its loops end and its pieces stay inside the buffers. After a failure the contents of the entries are not described, as the next list replaces them.
- Ata.AtaDev.WriteChunk: writing is a stub in the source and moves nothing.
- The command dispatch `ata_sif_cmd`, which only selects between CmdBb and CmdSg.
