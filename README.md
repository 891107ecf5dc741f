# Lexical analyzer engine of `tokenizer.js`, modelled in Dafny

The program reads a source text and writes a report that groups its lexemes
into statements, numbers the lexemes of each statement and names the category
of each one, or flags it as a lexical error. This project models the engine
that does that work, in five modules:

- `Scanner` (`scanner.dfy`): `get_token` cuts one lexeme off the input at a
  cursor (a maximal digit run; otherwise one character, extended by `=` after
  one of `= ! < >`, and extended into a maximal run of ASCII letters when it
  is a letter); `analyze` repeats it until the cursor reaches the end. The
  cursor is passed in and returned instead of living in a global. `LexemeEnd`
  states case by case where each lexeme ends, and `LexemesFrom` is the
  sequence of lexemes repeated scanning produces.
- `Classifier` (`classifier.dfy`): `get_token_str`, the lookup from the exact
  text of a lexeme to its label (`"an INT_LITERAL"`, `"a SEMI_COLON"`, ...) or
  to the empty label of a lexical error, beside the same table written as a map.
- `Pipeline` (`pipeline.dfy`): the generic `filter` and `map`, and the
  whitespace condition the program filters lexemes by.
- `Reporter` (`reporter.dfy`): the closure returned by `merge` as the class
  `Merger` (fields `statementCount`, `lexemeCount` where -1 means "a `;` was
  just seen", and `index` into the label array), and `reduce`, which calls the
  closure on each lexeme in turn and concatenates the chunks. `Step` is one
  call of the closure on values, `ReportFrom` the fold of `Step`
  and `CountersFrom` the counters the fold leaves.
  `ClosedReportFrom` describes the same report with no counters: a chunk starts
  with the dashed separator exactly when the previous lexeme is `;`; it has a
  `Statement #n` header exactly when no lexeme of its statement has been
  recognized yet, with `n` one past the headers before it; then comes either
  the error line or `Lexeme k is ...` with `k` the number of recognized
  lexemes before it in its statement. `ReportIsClosedForm` proves the two equal.
- `Engine` (`engine.dfy`): the composition the program runs (scan, drop
  whitespace lexemes, label, fold), the fact that the reported lexemes spell the
  input minus its whitespace, and worked examples.

Behaviour the model keeps because the code has it, where a reader might
expect otherwise:

- An error lexeme takes no lexeme number, so a statement whose first lexemes
  are errors gets a further header before its first recognized lexeme: `@1;`
  yields `Statement #1`, the error line for `@`, then `Statement #2` before
  `Lexeme 0 is 1`. Statement numbers therefore count headers, not `;`
  lexemes. When no lexeme is an error there is exactly one header per
  statement (`HeadersWithoutErrors`); an error lexeme adds a header only when
  no lexeme of its statement has been recognized before it, so `1@;` still
  gets a single header.
- Alphabetic runs get the empty label and are reported as lexical errors,
  except the run `Infinity`, which JavaScript's `isNaN` accepts as a number and
  which is therefore labelled `an INT_LITERAL`.
- A lexeme that is a single ECMAScript white-space character other than tab,
  newline, return and space (vertical tab, form feed, no-break space, ...)
  passes the whitespace filter, and since JavaScript converts it to the
  number 0 it is labelled `an INT_LITERAL` and reported as a numbered lexeme.
- There is no separator after the last statement; the separator is written
  at the start of the lexeme that follows a `;`.
- For `1<=2;5@+abc;` the second statement reads `Lexeme 0 is 5 ...`, the
  error line for `@`, `Lexeme 1 is + ...`, the error line for `abc`, and
  `Lexeme 2 is ; ...`, with no separator after it.

## Model

| member | source | states |
|---|---|---|
| `Scanner.DigitRunEnd` | tokenizer.js:55-57 | the digit loop stops at the end of the maximal digit run: everything consumed is a digit and the next character, if any, is not |
| `Scanner.LetterRunEnd` | tokenizer.js:71-75 | the letter loop stops at the end of the maximal ASCII letter run |
| `Scanner.GetToken` | tokenizer.js:52-77 | called with the cursor before the end, returns a non-empty lexeme equal to the input between the old and the new cursor, strictly advances the cursor, keeps it within the input, and stops where `LexemeEnd` says |
| `Scanner.Analyze` | tokenizer.js:28-37 | ends with the cursor at the end of the input, returns exactly the lexemes of repeated scanning, whose concatenation is the input from the starting cursor, each of one of the four lexeme shapes |
| `Scanner.ConcatLexemes` | tokenizer.js:28-37 | concatenating the scanned lexemes in order reconstructs the input from the cursor on: nothing lost, nothing duplicated |
| `Scanner.LexemeShape` | tokenizer.js:52-77 | a lexeme starting with a digit is a maximal digit run and takes no letters; otherwise it is the operator and `=` exactly when one of `= ! < >` is followed by `=`, a maximal letter run when it starts with a letter, and a single character otherwise |
| `Scanner.LexemesWellFormed` | tokenizer.js:52-77 | every scanned lexeme is a digit run, a letter run, a comparison operator with `=`, or one character that is neither digit nor letter |
| `Classifier.Label` | tokenizer.js:89-127 | the label is empty exactly when the lexeme is neither a number nor one of the 16 operator and punctuation lexemes, and is `an INT_LITERAL` exactly for numbers |
| `Classifier.LabelIsTableLookup` | tokenizer.js:89-127 | the if-chain gives `an INT_LITERAL` to numbers, the table's label to each listed operator or punctuation lexeme, and the empty label to everything else |
| `Classifier.LabelOfLexeme` | tokenizer.js:91-125 | on scanned lexemes: a digit run is an INT_LITERAL, a letter run is an error unless it is `Infinity`, and an operator lexeme gets its listed label |
| `Pipeline.Filter` | tokenizer.js:181-195 | returns the order-preserving subsequence of the tokens that satisfy the condition; every element returned satisfies it |
| `Pipeline.Map` | tokenizer.js:140-150 | returns an array of the same length whose element `k` is the condition applied to token `k` |
| `Pipeline.KeptSatisfies` | tokenizer.js:185-188 | every element kept by the filter satisfies its condition |
| `Pipeline.KeptMembers` | tokenizer.js:181-195 | an element is kept exactly when it occurs in the input and satisfies the condition |
| `Pipeline.KeptAppend` | tokenizer.js:181-195 | filtering a concatenation is the concatenation of the filtered parts, so kept elements stay in input order |
| `Pipeline.KeptBounds` | tokenizer.js:181-195 | the filter never lengthens its input and drops nothing when every element satisfies the condition |
| `Reporter.NatTextRoundTrip` | tokenizer.js:221 | the decimal text of a counter reads back as the counter's value |
| `Reporter.Merger.constructor` | tokenizer.js:204-210 | `merge` starts the closure at statement 1, lexeme 0, index 0 over the given label array |
| `Reporter.Merger.Merge` | tokenizer.js:211-237 | one call of the closure returns the chunk `Step` gives for the token and the label at the running index, leaves the counters `Step` gives, and advances the index by one |
| `Reporter.Reduce` | tokenizer.js:163-172 | appends to the base, left to right, the chunk of every token from the given index on, calling the closure once per token, and leaves the closure's statement and lexeme counters at the values `CountersFrom` gives for those tokens and labels |
| `Reporter.ReportFromSplit` | tokenizer.js:163-172 | folding the closure over the tokens in two parts gives the same report as folding at once, the second part continuing from the counters the first leaves, so a reduction may be resumed at any position with the closure as it stands |
| `Reporter.StepIsClosedForm` | tokenizer.js:213-236 | from the counters the closed form predicts before a token, one call emits that token's closed-form chunk (separator exactly after `;`, header exactly while the statement has no recognized lexeme, error line leaving the lexeme number unchanged or numbered lexeme line advancing it, `;` setting it to -1) and reaches the counters predicted after it |
| `Reporter.ReportFromIsClosedForm` | tokenizer.js:163-172 | folding the closure over the tokens from any position gives the concatenated closed-form chunks from that position |
| `Reporter.ReportIsClosedForm` | tokenizer.js:204-238 | the whole report equals its closed-form description: headers numbered 1, 2, 3, ... consecutively, separators exactly before the lexemes that follow a `;`, recognized lexemes numbered from 0 within their statement |
| `Reporter.HeadersWithoutErrors` | tokenizer.js:215-222 | when no lexeme is an error, a header precedes exactly the first lexeme and each lexeme after a `;` |
| `Engine.LabelsOf` | tokenizer.js:284 | the labels run parallel to the lexemes: same length, label `k` is the label of lexeme `k` |
| `Engine.Run` | tokenizer.js:280-286 | scanning, filtering, mapping and reducing, in the program's order, produce the report `Tokenize` describes |
| `Engine.BlankLexemes` | tokenizer.js:282 | a scanned lexeme fails the whitespace filter exactly when it is a single tab, newline, return or space |
| `Engine.VisibleSpellsInput` | tokenizer.js:282 | the lexemes that survive the filter, concatenated, are the input with its tabs, newlines, returns and spaces removed |
| `Engine.DigitsThenLetters` | tokenizer.js:55-75 | `12abc` scans as `12` then `abc` |
| `Engine.OperatorExtension` | tokenizer.js:59-67 | `=a` scans as `=` then `a`, and `<=` as one lexeme |
| `Engine.ErrorFirstGivesTwoHeaders` | tokenizer.js:215-234 | the report for `@1;` is header 1, the error line for `@`, header 2, `Lexeme 0 is 1`, `Lexeme 1 is ;` |

## Left out

- `main` and the `require.main` guard (tokenizer.js:249-303): argument
  checking, reading and writing files, console messages. `Engine.Run` models
  only the engine calls inside it.
- `Classifier.Label`: JavaScript's `isNaN` is modelled only on the strings the
  scanner can produce (digit runs, letter runs, one- and two-character
  lexemes) plus the empty string; numeric forms the scanner never emits (signs,
  decimal points, exponents, hexadecimal prefixes, digits padded with
  whitespace) are not recognized as numbers.
- Strings are sequences of characters; UTF-16 code units are not modelled, so
  a character outside the basic multilingual plane is one lexeme here where the
  source would split it into two surrogate halves.
- `Scanner.GetToken`: calling it with the cursor at the end of the input,
  where the source reads past the end and returns the text `undefined`, is
  excluded by its precondition; `analyze` never does it.
- `Reporter.Merger.Merge`: a call with no label left at the running index,
  where the source throws, is excluded by its precondition; the program always
  passes a label array as long as the lexeme array.
- The global cursor of the source is never reset between scans; the model
  gives each scan its own cursor (`Scanner.Analyze` takes the starting cursor).
- The recursion depth and stack use of the recursive `analyze`, `map`,
  `filter` and `reduce`; `filter` and `map` are loops here and `analyze` a
  loop, with the same results.
