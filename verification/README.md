# JSON Formatter: a Dafny model

This project models the core of the JSON-Formattor web application. The
application is a browser tool that formats, minifies, validates and
converts JSON and JSON5 text. The model covers these parts of it:

- the formatter utilities: pretty-printing, minifying, indentation,
  sorting and filtering keys, and flattening and unflattening;
- the JSON5 pre-processor, with its three text passes: comments,
  trailing commas and unquoted keys;
- the validator: error positions, line and column, suggestions, extra
  trailing-comma errors, the line-numbered token scan and the error context;
- the syntax highlighter: the tokenizer, the HTML markup and the
  key/value colouring;
- the statistics and performance ratings;
- the tree view builder and its operations;
- the zustand store and its persisted part;
- the keyboard-shortcut registry, key matching and display strings;
- the file acceptance rules.

Values are the `Json` datatype (`JsonValue`). `JSON.stringify` is modelled
exactly by `Serializer.Stringify`:

- the three forms of the `space` argument;
- the 10-character clamp;
- escaping;
- the layout of empty and non-empty containers.

A reference reader (`Serializer.ReadDocument`) is its partner.
`StringifyRoundTrip` proves that reading a stringified value gives the
value back. `JSON.parse` belongs to the JavaScript engine, so every
operation that calls it takes it as a parameter of type
`NativeParse = string -> Result<Json, string>`.

Each TypeScript file has its own module. The modules and the files they model:

| module | models |
|---|---|
| `Formatter`, `Flatten`, `FlattenRoundTrip`, `FormatCases` | `src/utils/jsonFormatter.ts` and the examples of `src/__tests__/basic.test.ts` |
| `Json5` (as written), `Json5Commas`, `Json5Keys`, `Json5Fixed` (corrected passes), `Json5Parse` | `src/utils/json5Parser.ts` |
| `Validator`, `ValidatorScan` | `src/utils/jsonValidator.ts` |
| `Highlighter`, `HighlightMarkup` | `src/utils/syntaxHighlighter.ts` |
| `Metrics` | `src/utils/metricsCalculator.ts` |
| `TreeView` | `src/utils/treeViewBuilder.ts` |
| `Store` | `src/store/useJsonStore.ts` |
| `Shortcuts` | `src/hooks/useKeyboardShortcuts.ts` and `src/utils/keyboardShortcuts.ts` |
| `Files` | `src/utils/fileHandler.ts` |
| `Types` | `src/types/index.ts` |

Where a source function has a bug, the member named after it follows the
code as written, and the corrected definition sits beside it under a name
ending in `Fixed` (or in module `Json5Fixed` for the three JSON5 passes).
Findings lists each pair.

## Model

| member | source | states |
|---|---|---|
| Serializer.StringifyRoundTrip | src/utils/jsonFormatter.ts:3-14 | Reading what `JSON.stringify` produces gives back the value, whenever the indentation (after the clamp to 10 characters) is JSON white space: any count, or a string of spaces, tabs and line breaks. A gap such as "ab" is not covered, and does not read back. |
| Serializer.EscapeChar | src/utils/jsonFormatter.ts:9 | A character is copied unchanged exactly when it needs no escape. Otherwise it becomes a backslash sequence of 2 to 6 characters. |
| Serializer.EscapeString | src/utils/jsonFormatter.ts:9 | An escaped string is never shorter than the original and contains no control character. |
| Serializer.Gap | src/utils/jsonFormatter.ts:6-9 | The indentation unit is at most 10 characters long. A number is clamped to 0..10 spaces and a string is cut to its first 10 characters. |
| Serializer.MemberText | src/utils/jsonFormatter.ts:9 | Every member of an object appears in its stringified form as the quoted key, the colon and the stringified value. |
| Formatter.FormatJson | src/utils/jsonFormatter.ts:3-14 | No data gives "". Otherwise the text reads back as the data, using a tab or the requested number of spaces as indentation. |
| Formatter.MinifyJson | src/utils/jsonFormatter.ts:16-25 | The minified text reads back as the data and holds no line break. |
| Formatter.SingleLine | src/utils/jsonFormatter.ts:16-25 | With an empty gap, stringified text has no line break at any depth. |
| Formatter.PrettyPrintJson | src/utils/jsonFormatter.ts:27-38 | Blank input gives "". Unparsable input or a negative indent gives the input back. Otherwise the output reads back as the parsed value. |
| Formatter.CompressJson | src/utils/jsonFormatter.ts:40-50 | Blank input gives "" and unparsable input is returned as is. Otherwise the output is single-line text that reads back as the parsed value. |
| Formatter.IndentationString | src/utils/jsonFormatter.ts:52-54 | A tab when tabs are used, otherwise exactly `indentSize` spaces. Without tabs a negative size is the `repeat` RangeError, and only then does it fail. |
| Formatter.ConvertIndentation | src/utils/jsonFormatter.ts:56-67 | The converted text reads back as the parsed input. Unparsable input and a negative space count leave the text unchanged. |
| Formatter.SortJsonKeys | src/utils/jsonFormatter.ts:69-80 | The output reads back as the key-sorted value. Blank and unparsable input is returned unchanged. |
| Formatter.SortKeys | src/utils/jsonFormatter.ts:82-97 | Scalars are unchanged and arrays keep their length, with each element sorted. An object's members are in key order and are a permutation of its sorted members. |
| Formatter.InsertFieldSorted | src/utils/jsonFormatter.ts:82-97 | Inserting a member into a key-ordered list keeps it ordered. |
| Formatter.SortFieldsSorted | src/utils/jsonFormatter.ts:82-97 | Sorting members always yields key order. |
| Formatter.SortKeysKeepsMembers | src/utils/jsonFormatter.ts:82-97 | Each member of the input survives sorting under its key with its value sorted, and no other member appears. |
| Formatter.SortKeysDeepSorted | src/utils/jsonFormatter.ts:82-97 | After sorting, every object at every depth is in key order. |
| Formatter.SortKeysOfSorted | src/utils/jsonFormatter.ts:82-97 | A value already sorted at every depth is left unchanged. |
| Formatter.SortKeysIdempotent | src/utils/jsonFormatter.ts:82-97 | Sorting twice is the same as sorting once. |
| Formatter.FilterJsonKeys | src/utils/jsonFormatter.ts:99-110 | The output reads back as the filtered value. Blank and unparsable input is returned unchanged. |
| Formatter.FilterKeys | src/utils/jsonFormatter.ts:112-129 | Scalars are unchanged and arrays are filtered element by element. An object keeps exactly the members whose key is allowed. |
| Formatter.FilterFields | src/utils/jsonFormatter.ts:112-129 | A key is kept exactly when it is allowed and present in the input. |
| Formatter.FilterKeysAllowed | src/utils/jsonFormatter.ts:112-129 | After filtering, every object at every depth has only allowed keys. |
| Formatter.FilterKeysOfAllowed | src/utils/jsonFormatter.ts:112-129 | A value with only allowed keys at every depth passes through unchanged. |
| Formatter.FilterKeysIdempotent | src/utils/jsonFormatter.ts:112-129 | Filtering twice is the same as filtering once. |
| Flatten.AssignLookup | src/utils/jsonFormatter.ts:155-167 | Assigning a property makes it read the new value and leaves every other property as it was. |
| Flatten.AssignNew | src/utils/jsonFormatter.ts:155-167 | A new property is added after the existing ones. |
| Flatten.AssignInPlace | src/utils/jsonFormatter.ts:155-167 | Reassigning an existing property keeps the key order. |
| Flatten.AssignAllDistinct | src/utils/jsonFormatter.ts:147-174 | Assigning distinct new keys one by one appends them in order. |
| Flatten.FlatIsLeafAssignment | src/utils/jsonFormatter.ts:147-174 | `flattenObject` assigns each leaf under its dotted and bracketed path, in document order. |
| Flatten.LeavesExactly | src/utils/jsonFormatter.ts:147-174 | A path is listed with a value exactly when following it reaches that value and the value is a leaf: a scalar or an empty container. |
| Flatten.FlattenedEntries | src/utils/jsonFormatter.ts:131-174 | When the rendered paths are distinct, the flattened object lists every leaf once under its path. |
| Flatten.FlattenJson | src/utils/jsonFormatter.ts:131-145 | The output reads back as the flattened object. Blank and unparsable input is returned unchanged. |
| Flatten.ToJsonFromJson | src/utils/jsonFormatter.ts:189-224 | Converting a value to the JavaScript object model and back gives the value. |
| Flatten.ArrayIndexOfNumeral | src/utils/jsonFormatter.ts:199-224 | Every numeral up to 2^32-2 names an array slot. |
| Flatten.Fresh | src/utils/jsonFormatter.ts:209-213 | An intermediate container is an empty array exactly when the next part is all digits, and an empty object otherwise. |
| Flatten.PutGet | src/utils/jsonFormatter.ts:199-224 | After a property write, the property reads the new value. Every other property, array slot and named array property keeps its value. |
| Flatten.SetPath | src/utils/jsonFormatter.ts:199-224 | A walk that reaches a primitive fails, as the TypeError of strict-mode code does; `unflattenJSON` then returns its input. A success keeps the kind of container it started from. |
| Flatten.SetPathThenGet | src/utils/jsonFormatter.ts:199-224 | After `setNestedValue`, the path reads the value and the other top-level properties are unchanged. |
| Flatten.Unflatten | src/utils/jsonFormatter.ts:189-197 | Unflattening null fails, and a successful result is always an object. |
| Flatten.UnflattenJson | src/utils/jsonFormatter.ts:176-187 | The output reads back as the unflattened object. Blank, unparsable or unrepresentable input is returned unchanged. |
| FlattenRoundTrip.RoundTrip | src/utils/jsonFormatter.ts:131-224 | Unflattening a flattened object gives back the original. This holds for non-empty objects with plain keys and no non-empty arrays. |
| FlattenRoundTrip.SplitKeyText | src/utils/jsonFormatter.ts:190-193 | Splitting a dotted key path at '.' gives back the key names. |
| FlattenRoundTrip.NamesInjective | src/utils/jsonFormatter.ts:147-174 | Different key paths have different name lists. |
| FlattenRoundTrip.RenderedDistinct | src/utils/jsonFormatter.ts:147-174 | Distinct key paths render to distinct flattened keys. |
| FormatCases.MinifyExample | src/__tests__/basic.test.ts:14-18 | The minified sample is exactly `{"name":"John","age":30,"hobbies":["reading","coding"]}`. |
| FormatCases.FormatExample | src/__tests__/basic.test.ts:7-12 | The default formatting contains `"name": "John"` and `"age": 30`. |
| FormatCases.NestedExample | src/__tests__/basic.test.ts:45-58 | Nested keys appear in the formatted output. |
| FormatCases.EmptyContainersExample | src/__tests__/basic.test.ts:60-66 | Empty objects and arrays print as `{}` and `[]`, and null prints as `null`. |
| FormatCases.EscapeExample | src/__tests__/basic.test.ts:68-73 | Quotes and backslashes in strings are escaped in the output. |
| FormatCases.DefaultPretty | src/types/index.ts:169-174 | The default options indent by two spaces. |
| FormatCases.PrettyMember | src/utils/jsonFormatter.ts:3-14 | Each member appears as `"key": value` in two-space formatting. |
| Json5.StripCommentsLoop | src/utils/json5Parser.ts:50-138 | The loop as written computes the recursive definition of the comment pass. |
| Json5.StripLineComment | src/utils/json5Parser.ts:57-66 | A line comment is dropped and its newline is kept. |
| Json5.StripBlockComment | src/utils/json5Parser.ts:67-85 | A closed block comment is dropped entirely. |
| Json5.StripUnclosedBlock | src/utils/json5Parser.ts:67-85 | In an unclosed block comment, the last character survives. |
| Json5.StripPlainPrefix | src/utils/json5Parser.ts:130-134 | Text with no slash and no quote passes through unchanged. |
| Json5.DoubledLength | src/utils/json5Parser.ts:87-128 | After a string literal, each later quote of the same kind is doubled, so the text grows by their count. |
| Json5.StripLiteralGrows | src/utils/json5Parser.ts:87-128 | As written, a complete string literal comes out with its closing quote doubled. |
| Json5Commas.CommaDropped | src/utils/json5Parser.ts:140-180 | A comma directly before `}` or `]` is removed. |
| Json5Commas.CommaKept | src/utils/json5Parser.ts:140-180 | Any other comma is kept. |
| Json5Commas.CommaRunKeepsOne | src/utils/json5Parser.ts:140-180 | Of `,,}` only the last comma is removed. |
| Json5Commas.CommasIdentity | src/utils/json5Parser.ts:140-180 | Text without strings or trailing commas is unchanged. |
| Json5Commas.CommasKeepOthers | src/utils/json5Parser.ts:140-180 | Outside strings, only commas are removed. |
| Json5Commas.CommasLiteralGrows | src/utils/json5Parser.ts:152-162 | As written, a double-quoted literal comes out with its closing quote doubled. |
| Json5Keys.KeyQuoted | src/utils/json5Parser.ts:182-258 | An identifier followed by optional whitespace and a colon becomes `"identifier":`. |
| Json5Keys.KeysIdentity | src/utils/json5Parser.ts:182-258 | Text without colons or quotes is unchanged. |
| Json5Keys.KeysKeepColons | src/utils/json5Parser.ts:182-258 | Outside strings, quoting keys never adds or removes a colon. |
| Json5Keys.KeysLiteralGrows | src/utils/json5Parser.ts:192-222 | As written, a string literal comes out with its closing quote doubled. |
| Json5Fixed.SpanClose | src/utils/json5Parser.ts:87-128 | The corrected string scan stops only at an unescaped closing quote. |
| Json5Fixed.SpanCloseBody | src/utils/json5Parser.ts:87-128 | The corrected string scan runs over a well-formed body, escaped quotes and escaped backslashes included, to the quote after it. |
| Json5Fixed.LiteralStep | src/utils/json5Parser.ts:87-128 | The corrected literal step copies the literal verbatim. |
| Json5Fixed.StripKeepsLiteral | src/utils/json5Parser.ts:87-128 | The corrected comment pass keeps a string literal unchanged, escapes included, when every backslash in it escapes a character. |
| Json5Fixed.StripIdentity | src/utils/json5Parser.ts:50-138 | The corrected comment pass leaves text without a slash unchanged. |
| Json5Fixed.CommasKeepLiteral | src/utils/json5Parser.ts:140-180 | The corrected comma pass keeps a string literal unchanged, escapes included, when every backslash in it escapes a character. |
| Json5Fixed.CommasIdentity | src/utils/json5Parser.ts:140-180 | The corrected comma pass leaves text without commas unchanged. |
| Json5Fixed.KeysKeepLiteral | src/utils/json5Parser.ts:182-258 | The corrected key pass keeps a string literal unchanged, escapes included, when every backslash in it escapes a character. |
| Json5Fixed.KeysIdentity | src/utils/json5Parser.ts:182-258 | The corrected key pass leaves text without colons unchanged. |
| Json5Parse.Preprocess | src/utils/json5Parser.ts:17-29 | The passes as written, in order. With all three options off, the text is passed on unchanged. |
| Json5Parse.PreprocessPlain | src/utils/json5Parser.ts:17-29 | Text with no slash, comma, colon or quote is unchanged whatever the options. |
| Json5Parse.PreprocessLiteral | src/utils/json5Parser.ts:17-29 | With every feature on, a string literal such as `"abc"` reaches the native parse with eight closing quotes. |
| Json5Parse.PreprocessFixed | src/utils/json5Parser.ts:17-29 | The corrected passes in the same order. With all three options off, the text is passed on unchanged. |
| Json5Parse.PreprocessFixedPlain | src/utils/json5Parser.ts:17-29 | With the corrected passes, text with no slash, comma or colon is unchanged whatever the options. |
| Json5Parse.PreprocessFixedLiteral | src/utils/json5Parser.ts:17-29 | With the corrected passes, a well-formed string literal, escapes included, reaches the native parse as written. |
| Json5Parse.WrapError | src/utils/json5Parser.ts:36-47 | The message always keeps the parser's message. It changes exactly when the message mentions "position" and comments or trailing commas are allowed. It then becomes the prefix, the message and the comment hint when comments are allowed, and the comma hint otherwise. |
| Json5Parse.ParseJson5 | src/utils/json5Parser.ts:9-48 | Parsing succeeds exactly when the native parser accepts the text as the passes as written leave it, and gives its value. A failure keeps the native message. |
| Json5Parse.ParseJson5Literal | src/utils/json5Parser.ts:9-48 | `parseJSON5` of a string literal succeeds exactly when the native parser accepts the literal followed by seven more quotes. |
| Json5Parse.ParseJson5Fixed | src/utils/json5Parser.ts:9-48 | The same contract over the corrected passes. |
| Json5Parse.ParseJson5FixedLiteral | src/utils/json5Parser.ts:9-48 | Over the corrected passes, a well-formed string literal, escapes included, parses exactly when the native parser accepts it as written. |
| Json5Parse.FormatJson5 | src/utils/json5Parser.ts:260-262 | A negative indent is the `repeat` RangeError. Otherwise the text reads back as the value. |
| Json5Parse.StringifyJson5 | src/utils/json5Parser.ts:264-279 | Only a negative numeric indent fails. The result never holds an apostrophe, whatever `singleQuotes` says. |
| Json5Parse.StringifyJson5ReadsBack | src/utils/json5Parser.ts:264-279 | When the stringified text has no apostrophe, the JSON5 form is that text and reads back as the value. |
| Json5Parse.StringValueRequoted | src/utils/json5Parser.ts:276-278 | An apostrophe inside a string value becomes a double quote. |
| Json5Parse.ConvertJsonToJson5 | src/utils/json5Parser.ts:281-289 | Unparsable input is returned unchanged. Otherwise the result is the JSON5 form of the parsed value. |
| Json5Parse.ConvertJson5ToJson | src/utils/json5Parser.ts:291-303 | The output reads back as the JSON5 value. Text that fails to parse is returned unchanged. |
| Json5Parse.StripJson5Comments | src/utils/json5Parser.ts:305-307 | The comment pass as written: text without a slash or a quote is unchanged. |
| Json5Parse.StripJson5CommentsLiteral | src/utils/json5Parser.ts:305-307 | `stripJSON5Comments('"ab"')` is `"ab""`: a closed literal comes out with its closing quote doubled. |
| Json5Parse.ValidateJson5 | src/utils/json5Parser.ts:309-339 | Valid exactly when JSON5 parsing succeeds, exactly when there are no errors, and exactly when cleaned text exists. The cleaned text reads back as the value, and the single error is the parse message. |
| Json5Parse.RemoveJson5Features | src/utils/json5Parser.ts:341-359 | The output reads back as the parsed pre-processed text. When that text does not parse, the pre-processed text itself is returned. |
| Validator.ValidateJson | src/utils/jsonValidator.ts:4-55 | The input is valid exactly when it is not blank and parses; then there are no errors and the data is the parsed value. Blank input gives exactly one error: "Empty JSON input", a syntax error at line 1, column 1, position 0. Other invalid input gives 1 to 4 errors: a syntax error with the parser's message first, then trailing-comma errors. |
| Validator.ValidateLocated | src/utils/jsonValidator.ts:4-55 | Every reported error carries the line and column of its position, and positions strictly increase. |
| Validator.ErrorLocationLocated | src/utils/jsonValidator.ts:63-96 | The position is the number in the message when there is one. The line and column are those of that position. |
| Validator.LineAndColumnCounts | src/utils/jsonValidator.ts:98-104 | The line is one more than the count of newlines before the clamped position. |
| Validator.PositionReadBack | src/utils/jsonValidator.ts:67-76 | The number after "position" (in any letter case) is found in the message. |
| Validator.ApproximateIsSearch | src/utils/jsonValidator.ts:106-134 | Without a position, a search runs only for messages with "unexpected", "end of string" or "expected". It walks back from the end of the input. |
| Validator.WordAtIff | src/utils/jsonValidator.ts:106-134 | A word matches at an index exactly when the text there equals it ignoring case. |
| Validator.ClashingWordsFindNothing | src/utils/jsonValidator.ts:106-134 | A message whose words start with different letters is never found, so the fallback position is -1. |
| Validator.UnexpectedIsExpected | src/utils/jsonValidator.ts:112-116 | Any message containing "unexpected" also contains "expected". |
| Validator.Suggestion | src/utils/jsonValidator.ts:136-162 | The comma advice is given exactly when the character before the position is `,`, `}` or `]`. The colon advice needs a quote on both sides. |
| Validator.SuggestionAfterSeparator | src/utils/jsonValidator.ts:136-162 | Right after a separator, the advice is always the comma advice. |
| Validator.AdditionalErrors | src/utils/jsonValidator.ts:164-189 | At most three errors, all trailing-comma errors. |
| Validator.AdditionalErrorsAre | src/utils/jsonValidator.ts:164-189 | The errors are trailing commas after the start, in increasing order, each located. With fewer than three, none is missed. |
| ValidatorScan.ParseWithLineNumbers | src/utils/jsonValidator.ts:191-298 | The loop as written lists the tokens. There is data exactly when the native parse succeeds, and then there are no errors. Otherwise there are 1 to 4 errors, and the first is a syntax error. |
| ValidatorScan.ParseTokensOccur | src/utils/jsonValidator.ts:191-298 | Every token the loop as written lists occurs in the input. |
| ValidatorScan.ScanSameTokens | src/utils/jsonValidator.ts:211-284 | The loop as written and the corrected scan list the same token texts and kinds in the same order. Only lines and columns differ. |
| ValidatorScan.ParseWithLineNumbersFixed | src/utils/jsonValidator.ts:191-298 | The corrected scan gives the same data, the same errors and as many tokens as the loop as written. |
| ValidatorScan.ParseTokensPlaced | src/utils/jsonValidator.ts:191-298 | With the corrected column, every token occurs in the input at an offset whose line and column it reports. |
| ValidatorScan.NumberColumnAsWritten | src/utils/jsonValidator.ts:245-257 | As written, a number at the start of the input gets a column of 0 or less. |
| ValidatorScan.StepCounts | src/utils/jsonValidator.ts:213-221 | The cursor's line and column after each character equal the line and column of the prefix. |
| ValidatorScan.ErrorContextLines | src/utils/jsonValidator.ts:300-313 | The context shows the window of lines around the error, one output line per input line. Only the error line is marked. This holds for any non-negative context size, the default of 2 included. |
| ValidatorScan.ContextShown | src/utils/jsonValidator.ts:300-313 | Splitting the joined context gives back the numbered lines of the window. |
| ValidatorScan.IsValidJson | src/utils/jsonValidator.ts:315-322 | On non-blank text, this agrees with `validateJSON`'s verdict. |
| ValidatorScan.IsValidJson5 | src/utils/jsonValidator.ts:324-340 | With the validator's own string-blind comment pass, every valid JSON text is valid JSON5. |
| ValidatorScan.IsValidJson5Fixed | src/utils/jsonValidator.ts:324-340 | With comments stripped outside strings only, every valid JSON text is valid JSON5. |
| ValidatorScan.Json5VerdictsAgree | src/utils/jsonValidator.ts:324-369 | On text without quotes, the verdict as written and the corrected one agree. |
| ValidatorScan.Json5NeedsComment | src/utils/jsonValidator.ts:324-369 | Without a slash, JSON5 validity is JSON validity. |
| ValidatorScan.StripCutsString | src/utils/jsonValidator.ts:342-369 | As written, `//` inside a string cuts the rest of the line. |
| ValidatorScan.FixedStripKeepsString | src/utils/jsonValidator.ts:342-369 | The corrected pass keeps a well-formed string literal unchanged, escapes and `//` included. |
| ValidatorScan.FixedStripKeepsEscape | src/utils/jsonValidator.ts:342-369 | The corrected pass keeps the string `"a\"//b"` whole: neither the escaped quote nor the slashes end it. |
| ValidatorScan.BreakKept | src/utils/jsonValidator.ts:347-351 | Both passes keep the newline that ends a line comment. |
| Highlighter.TokenizeCovers | src/utils/syntaxHighlighter.ts:10-224 | Concatenating the token values gives back the input. |
| Highlighter.TokenizeCuts | src/utils/syntaxHighlighter.ts:10-224 | The tokens are consecutive slices of the input with matching start and end. |
| Highlighter.SpaceTokenShape | src/utils/syntaxHighlighter.ts:22-52 | A whitespace token is all whitespace with no newline before its last character. A run stops only at a non-space or a newline. |
| Highlighter.NewlineIsSpaceToken | src/utils/syntaxHighlighter.ts:22-70 | A newline is a whitespace token on its own. |
| Highlighter.StringTokenShape | src/utils/syntaxHighlighter.ts:71-107 | A string token opens with a quote and closes with one unless the input ends. An escaped quote never closes it. |
| Highlighter.StringCloseIsLiteralScan | src/utils/syntaxHighlighter.ts:74-88 | The tokenizer's string scan is the escape-aware scan of a string literal. |
| Highlighter.NumberTokenShape | src/utils/syntaxHighlighter.ts:108-141 | A number token consists only of digits, '.', 'e', 'E', '+' and '-'. |
| Highlighter.KeywordToken | src/utils/syntaxHighlighter.ts:142-190 | `true`, `false` and `null` become one token of their kind. |
| Highlighter.AdvanceTracks | src/utils/syntaxHighlighter.ts:10-224 | Outside strings, the tokenizer's line and column are those of the token's start offset. |
| Highlighter.TokenizeLines | src/utils/syntaxHighlighter.ts:10-224 | For input without string literals, every token reports its true line and column. |
| Highlighter.TokensLineCount | src/utils/syntaxHighlighter.ts:10-224 | The line counter rises by one for each newline token. |
| HighlightMarkup.EscapeHtmlInert | src/utils/syntaxHighlighter.ts:251-258 | Escaped text contains no `<`, `>`, `"` or `'`. |
| HighlightMarkup.EscapeAppend | src/utils/syntaxHighlighter.ts:251-258 | Escaping distributes over concatenation. |
| HighlightMarkup.HighlightShowsInput | src/utils/syntaxHighlighter.ts:3-8 | Removing the markup tags leaves the escaped input. |
| HighlightMarkup.HighlightPairsShowsInput | src/utils/syntaxHighlighter.ts:264-295 | Both the as-written and the corrected key/value markup show the escaped input once the tags are removed. |
| HighlightMarkup.FixedMarksKeys | src/utils/syntaxHighlighter.ts:264-295 | With the corrected classifier, the tokens of any object or array, nested to any depth, are marked as an independent reference says: every object key as a key, every other string as a string, every other token as its own kind. |
| HighlightMarkup.FixedMarksValue | src/utils/syntaxHighlighter.ts:272-292 | A value met where no key is expected is marked as the reference says, and leaves the stack of open brackets and the expectation as it found them. |
| HighlightMarkup.FixedMarksFields | src/utils/syntaxHighlighter.ts:272-292 | Inside a brace, each member's key is marked as a key, whether it comes after `{` or after `,`. |
| HighlightMarkup.FixedMarksItems | src/utils/syntaxHighlighter.ts:272-292 | Inside a square bracket, the elements are marked as values: a `,` there does not make a key expected. |
| HighlightMarkup.MarksAreKinds | src/utils/syntaxHighlighter.ts:272-284 | The reference marks a token as a key only when it is a string, and every other token as its own kind. |
| HighlightMarkup.NestedObjectMarked | src/utils/syntaxHighlighter.ts:264-295 | In `{"a":{"b":"c"}}` the corrected classifier marks both keys as keys and `"c"` as a string. |
| HighlightMarkup.NestedObjectAsWritten | src/utils/syntaxHighlighter.ts:289-291 | As written, the value `"c"` of `{"a":{"b":"c"}}` is marked as a key. |
| HighlightMarkup.StringArrayMarked | src/utils/syntaxHighlighter.ts:264-295 | In `["x","y"]` the corrected classifier marks no element as a key; as written, `"x"` is marked as a key. |
| HighlightMarkup.PairKindsAt | src/utils/syntaxHighlighter.ts:272-292 | As written, each token is marked from the flag that the tokens before it leave. |
| HighlightMarkup.MemberStep | src/utils/syntaxHighlighter.ts:272-292 | As written, a member's key and value are both marked as keys, and after the comma no key is expected. |
| HighlightMarkup.PairKindsAsWritten | src/utils/syntaxHighlighter.ts:289-291 | As written, the value of the first member is marked as a key. |
| HighlightMarkup.SecondKeyAsWritten | src/utils/syntaxHighlighter.ts:289-291 | As written, the second key is marked as a string. |
| HighlightMarkup.SmallObjectMarked | src/utils/syntaxHighlighter.ts:264-295 | In `{"a":"b"}` the value is a key as written and a string when corrected. |
| HighlightMarkup.GenerateLineNumbers | src/utils/syntaxHighlighter.ts:260-262 | One label per line, counting from 1. |
| Metrics.FieldKeysAtLeast | src/utils/metricsCalculator.ts:45-59 | An object counts at least one key per member, and exactly one per member when no member's value is a container. |
| Metrics.FourKeys | src/utils/metricsCalculator.ts:45-59 | Two outer keys and two nested keys count as four. |
| Metrics.Depth | src/utils/metricsCalculator.ts:61-73 | The depth is never below the starting depth. |
| Metrics.DepthShift | src/utils/metricsCalculator.ts:61-73 | Starting deeper adds the same amount to the result. |
| Metrics.ThreeDeep | src/utils/metricsCalculator.ts:61-73 | Three nested objects have depth 3. |
| Metrics.KeyPatternMember | src/utils/metricsCalculator.ts:27 | Each member written out matches the key pattern once. |
| Metrics.KeyPatternNone | src/utils/metricsCalculator.ts:27 | Text without a double quote has no key matches. |
| Metrics.CalculateStatistics | src/utils/metricsCalculator.ts:7-43 | Sizes are UTF-8 lengths, and the line count is newlines plus one. Keys and depth come from the parsed output; unparsable output gives the pattern count and depth 0. |
| Metrics.CompressionRatio | src/utils/metricsCalculator.ts:30-41 | The ratio is 0 for empty input or equal sizes, and lies in 0..100 when the output is not larger. It is below -99.99 when the output is more than twice as large. |
| Metrics.RatioBounds | src/utils/metricsCalculator.ts:114-121 | The unrounded ratio is 0 for equal sizes and lies in 0..100 when the output is not larger. It is below -100 when the output is more than twice as large. |
| Metrics.CheckPerformance | src/utils/metricsCalculator.ts:174-196 | Meeting the target implies meeting the maximum. The rating is Excellent exactly on target and Poor exactly past the maximum. |
| Metrics.RatingMonotone | src/utils/metricsCalculator.ts:174-196 | A slower time never rates better, and a larger file never rates worse. |
| Metrics.TargetTime | src/utils/metricsCalculator.ts:182-186 | The target is 100, 1000 or 5000 ms. |
| Metrics.MaximumTime | src/utils/metricsCalculator.ts:182-187 | The maximum is 200, 2000 or 10000 ms. |
| TreeView.ValueType | src/utils/treeViewBuilder.ts:110-117 | Object and array exactly for containers, and string exactly for strings. |
| TreeView.BuildShape | src/utils/treeViewBuilder.ts:4-108 | A container gives one node per entry, describing its key, value, path and depth. A scalar gives a single root node. |
| TreeView.BuildDistinct | src/utils/treeViewBuilder.ts:4-108 | Node ids are distinct across the whole tree, and one id is used per node. |
| TreeView.CountNodesAll | src/utils/treeViewBuilder.ts:223-233 | `countNodes` counts every node of the tree. |
| TreeView.SetExpandedCount | src/utils/treeViewBuilder.ts:184-198 | Expanding or collapsing everything keeps every node. |
| TreeView.SetExpandedShape | src/utils/treeViewBuilder.ts:184-198 | Every node gets the flag and keeps its id. |
| TreeView.SetExpandedTwice | src/utils/treeViewBuilder.ts:184-198 | The last of two expand/collapse calls wins. |
| TreeView.FlattenCollapsed | src/utils/treeViewBuilder.ts:119-133 | The visible list of a collapsed tree is its top level. |
| TreeView.FlattenExpanded | src/utils/treeViewBuilder.ts:119-133 | The visible list of an expanded tree is every node in document order. |
| TreeView.ToggleTwice | src/utils/treeViewBuilder.ts:172-182 | Toggling the same node twice restores the tree. |
| TreeView.ToggleFlips | src/utils/treeViewBuilder.ts:172-182 | With distinct ids, toggling flips exactly the node with that id. |
| TreeView.ToggleAbsent | src/utils/treeViewBuilder.ts:172-182 | Toggling an absent id changes nothing. |
| TreeView.ToggleShape | src/utils/treeViewBuilder.ts:172-182 | Toggling keeps every node and id. |
| TreeView.First | src/utils/treeViewBuilder.ts:135-144 | The first node with the id is found exactly when one exists. |
| TreeView.FindByIdFirst | src/utils/treeViewBuilder.ts:135-144 | `findNodeById` returns the first node with the id in document order. |
| TreeView.NodeDepth | src/utils/treeViewBuilder.ts:200-203 | The depth is that of the node found, or 0 when there is none. |
| TreeView.DepthsMax | src/utils/treeViewBuilder.ts:205-221 | The maximum bounds every depth and is attained. |
| TreeView.MaxDepthAll | src/utils/treeViewBuilder.ts:205-221 | `getMaxDepth` is the greatest depth of any node. |
| TreeView.PathString | src/utils/treeViewBuilder.ts:235-238 | The root shows "(root)", and every path part appears in the string. |
| TreeView.SearchAll | src/utils/treeViewBuilder.ts:240-261 | The search keeps exactly the matching nodes, in document order. |
| TreeView.SearchEmpty | src/utils/treeViewBuilder.ts:240-261 | An empty term finds every node. |
| TreeView.FormatAsStringify | src/utils/treeViewBuilder.ts:280-293 | Any string shows as its characters between double quotes, with nothing escaped. Null, booleans, numbers and strings that need no escape show as `JSON.stringify` shows them. A container shows its type name. |
| TreeView.FormatQuoteUnescaped | src/utils/treeViewBuilder.ts:282-283 | The string `a"b` shows as `"a"b"`, which differs from what `JSON.stringify` writes. |
| TreeView.TreeStatisticsAgree | src/utils/treeViewBuilder.ts:295-352 | The totals per type add up to the node count, and the maximum depth agrees with `getMaxDepth`. |
| Types.ErrorCodesDistinct | src/types/index.ts:187-201 | The eleven error codes have distinct names. |
| Store.SetInputJson | src/store/useJsonStore.ts:84-91 | The input is stored, validity is reset and processing stops. Nothing else changes. |
| Store.SetOutputJson | src/store/useJsonStore.ts:93-95 | Only the output changes. |
| Store.SetValidationResult | src/store/useJsonStore.ts:97-104 | The validity and errors are stored. The error panel opens exactly for an invalid result with errors. The output is the data stringified with the indent size, or "" when the data is falsy. |
| Store.SetFormattingOptions | src/store/useJsonStore.ts:106-110 | Only the options change, by a field-wise merge. |
| Store.MergeFormatting | src/store/useJsonStore.ts:106-110 | Given fields win and absent fields keep their value. |
| Store.SetProcessingState | src/store/useJsonStore.ts:112-116 | Only the processing state changes, by a field-wise merge. |
| Store.SetStatistics | src/store/useJsonStore.ts:118-122 | Only the statistics change, by a field-wise merge. |
| Store.ToggleKeyboardShortcuts | src/store/useJsonStore.ts:132-134 | Only the shortcut panel flag flips. |
| Store.ToggleErrorPanel | src/store/useJsonStore.ts:136-138 | Only the error panel flag flips. |
| Store.ClearAll | src/store/useJsonStore.ts:140-152 | Everything except the options, view, shortcut panel and processing state returns to its initial value. |
| Store.LoadFile | src/store/useJsonStore.ts:154-162 | The content, name and size are stored and validity is reset. The output is kept. |
| Store.ResetFormattingOptions | src/store/useJsonStore.ts:164-166 | Only the options change, to the defaults. |
| Store.Dispatch | src/store/useJsonStore.ts:84-166 | Only the options, reset, clear and load actions touch the persisted part. Only input, clear and load change the input, and those three reset validity. |
| Store.Rehydrate | src/store/useJsonStore.ts:169-175 | Restoring saved data makes the persisted part equal to it. |
| Store.Select | src/store/useJsonStore.ts:180-195 | Minifying needs formatting to be possible. Each flag holds exactly under its condition, and the ratio is 0 without an original size. |
| Shortcuts.DefaultsTable | src/hooks/useKeyboardShortcuts.ts:5-118 | 14 enabled shortcuts whose action is their id, with distinct ids. |
| Shortcuts.DefaultSignaturesDistinct | src/hooks/useKeyboardShortcuts.ts:5-118 | No two default keys are equal ignoring case. |
| Shortcuts.DefaultsUnambiguous | src/hooks/useKeyboardShortcuts.ts:216-226 | At most one default shortcut matches any key event. |
| Shortcuts.Pressed | src/hooks/useKeyboardShortcuts.ts:210-215 | A modifier is listed exactly when its key is held. |
| Shortcuts.FindMatch | src/hooks/useKeyboardShortcuts.ts:219-227 | The first enabled shortcut with the same key (ignoring case) that lists as many modifiers as are pressed, each of them held. |
| Shortcuts.HandleKeyDown | src/hooks/useKeyboardShortcuts.ts:197-236 | A handler fires only when shortcuts are on, the event passes the guard and the first match has a handler. The action that fires is the first match's. In an editable field, only Ctrl+Escape and Ctrl+Enter fire. |
| Shortcuts.Register | src/hooks/useKeyboardShortcuts.ts:160-168 | A known id is replaced in place and a new one is appended. |
| Shortcuts.RegisterLookup | src/hooks/useKeyboardShortcuts.ts:160-168 | The registered id reads the new shortcut and other ids are unchanged. |
| Shortcuts.Unregister | src/hooks/useKeyboardShortcuts.ts:171-173 | The list without the id. |
| Shortcuts.WithoutLookup | src/hooks/useKeyboardShortcuts.ts:171-173 | The removed id is gone and others are unchanged. |
| Shortcuts.SetEnabled | src/hooks/useKeyboardShortcuts.ts:176-189 | Only the enabled flag of the shortcut with the id changes. An unknown id changes nothing. |
| Shortcuts.SetEnabledLookup | src/hooks/useKeyboardShortcuts.ts:176-189 | The id reads the shortcut with the new flag. |
| Shortcuts.Reset | src/hooks/useKeyboardShortcuts.ts:192-194 | As written, the list returns to the default objects, which may have been mutated. |
| Shortcuts.DisabledSurvivesReset | src/hooks/useKeyboardShortcuts.ts:184-194 | As written, a default disabled before a reset is still disabled after it. |
| Shortcuts.ResetFixed | src/hooks/useKeyboardShortcuts.ts:192-194 | The corrected reset restores the default table. |
| Shortcuts.ResetForgets | src/hooks/useKeyboardShortcuts.ts:160-194 | With the corrected reset, nothing done before a reset affects what follows it. |
| Shortcuts.ForAction | src/hooks/useKeyboardShortcuts.ts:155-157 | A shortcut with the action is found exactly when one exists, and it is the first such shortcut in the list. |
| Shortcuts.ModifierParts | src/hooks/useKeyboardShortcuts.ts:306-346 | The names of the held modifiers, each present exactly when held, always in the order Ctrl, Alt, Shift, Cmd, and nothing else. |
| Shortcuts.DisplayShape | src/hooks/useKeyboardShortcuts.ts:306-346 | The display ends with the key's label and starts with "Ctrl + " when Ctrl is held. |
| Shortcuts.KeyLabelsAgree | src/utils/keyboardShortcuts.ts:118-158 | The hook and the utility label a key alike when the utility names it or the hook does not. |
| Shortcuts.DisplaysDiffer | src/utils/keyboardShortcuts.ts:118-158 | They differ on a lower-case "escape": the hook shows "Esc" and the utility shows "escape". |
| Shortcuts.DefaultDisplaysAgree | src/hooks/useKeyboardShortcuts.ts:306-346 | Both display functions agree on every default shortcut. |
| Shortcuts.EnabledOnly | src/hooks/useKeyboardShortcuts.ts:349-361 | Exactly the enabled shortcuts are kept. |
| Shortcuts.FormattedShortcutsOrder | src/hooks/useKeyboardShortcuts.ts:349-361 | The lines show the enabled shortcuts, permuted into order with more modifiers first. |
| Shortcuts.RunHandler | src/hooks/useKeyboardShortcuts.ts:270-300 | Only the actions in the handler map do anything, and each has the stated effect on the store. |
| Files.ReadFile | src/utils/fileHandler.ts:7-44 | The size limit comes first, then the type rule, then the read outcome. |
| Files.ReadFileBoundaries | src/utils/fileHandler.ts:7-44 | 10 MiB is accepted and one byte more is not. The type is refused exactly when neither the MIME type nor the extension qualifies. |
| Files.DownloadName | src/utils/fileHandler.ts:46-64 | The name always ends in ".json", which is added only when missing. |
| Files.DownloadNameAppends | src/utils/fileHandler.ts:46-64 | "data.txt" becomes "data.txt.json". |
| Files.HandleDrop | src/utils/fileHandler.ts:85-151 | A drop accepts no file `readFile` refuses. Without options it accepts exactly those `readFile` accepts. An empty type list refuses everything. |
| Files.DropIgnoresExtension | src/utils/fileHandler.ts:125-131 | A ".json" file with no MIME type is read by `readFile` but refused by a JSON-only drop. |
| Files.FormatFileSize | src/utils/fileHandler.ts:66-74 | Zero is "0 Bytes". |
| Files.EstimateLineCount | src/utils/fileHandler.ts:235-237 | Newlines plus one. |
| Files.EstimatesAgree | src/utils/fileHandler.ts:235-242 | Both estimates equal the statistics' counts for unparsable text. |
| Files.DragRunIsLast | src/utils/fileHandler.ts:98-115 | After the three handlers have run on a sequence of events, the local flag depends on the latest event alone: true after a drag-over, false after a drag-leave or a drop. |
| Files.ExposedDraggingFixed | src/utils/fileHandler.ts:98-115 | The corrected exposed flag is true exactly while a drag-over is the latest event. |

## Left out

- JSON.parse is a parameter. It is not modelled beyond its success or failure and its message.
- Number values are integers. Fractions, exponents and floating-point formatting of numbers are not modelled.
- The compression ratio is computed on reals and rounded to hundredths. Binary floating-point error is not modelled.
- Strings are sequences of Dafny characters, which are Unicode scalar values. JavaScript strings are sequences of UTF-16 code units. So lengths, engine positions, columns, `Object.entries` of a string and the default sort order count scalar values where the source counts code units. The two agree on text below U+10000. A lone surrogate cannot be represented. The UTF-8 size (`Blob.size`) counts 4 bytes for a character above U+FFFF, as a browser does for its surrogate pair.
- `localeCompare` in the shortcut list's order is replaced by the character order `Less`. Locale collation cannot be expressed here. Key sorting uses the default `sort()`, which the same order models.
- `toLowerCase` is modelled for ASCII letters only.
- JSON.stringify of functions, `undefined`, `toJSON` and cycles is out of scope, because `Json` values cannot hold them.
- Duplicate keys in an object are kept as a list. The parser's last-one-wins rule is left to the parse parameter.
- Flatten.Put: a write to an array's `length` property is not modelled and fails (`None`). Truncating an array does not fit a value model. A write to `__proto__` creates an ordinary property here, where JavaScript calls the prototype setter. A new property is always appended, so the objects `unflattenObject` builds keep integer-like keys in insertion order: `{"a.b":1,"a.2":2}` unflattens to `{"a":{"b":1,"2":2}}` here, where JavaScript lists `"2"` first.
- Flatten.Get: only own properties are read. In the source, `current[part]` also finds inherited properties of `Object.prototype` (`toString`, `constructor`, `__proto__`). So `unflattenJSON('{"toString.x":1}')` gives `{}` in the source and `{"toString":{"x":1}}` here. A path that starts with `__proto__.` writes into `Object.prototype` (prototype pollution), which a value model cannot hold.
- Formatter.SortKeys: JavaScript objects list integer-like keys ("9", "10") first, in numeric order, whatever order they were added in. The model keeps the order in which members are written, so for such keys its output order differs. An own `__proto__` member is also dropped by `sorted[key] =`, while the model keeps it.
- Formatter.FilterKeys: the same two points as for sorting: integer-like keys come first in the source's output, and an own `__proto__` member is lost there.
- Flatten.Flat: `result[prefix] =` has the same object semantics: integer-like flattened keys are listed first in the source, and a `__proto__` leaf is lost there.
- FlattenRoundTrip.RoundTrip: proved only for non-empty objects with no non-empty array anywhere. Their keys must be distinct, non-empty, free of '.' and not all digits. Arrays, dotted keys and numeral keys do not come back as they were in the source either. Keys naming an inherited property of `Object.prototype` (`toString`, `__proto__`) are not excluded: the model has no prototype, and in the source such keys do not come back.
- Tree node ids come from a counter instead of `uuid`. Only their distinctness matters.
- The tree nodes' `parent` back-reference is left out, because a value model cannot hold the cycle.
- `filterVisibleNodes` and `findNodeByPath` are not modelled. They are unused by the rest of the core.
- TreeView.PathString states the root case and that every part appears, not the full " → " join layout.
- The processing time is a parameter. Clocks, `performance.now` and the performance tracker are left out.
- `measureMemoryUsage`, `formatBytes`, `formatDuration` and `estimateParsingPerformance` are left out. They read the clock or format floating-point numbers.
- Files.FormatFileSize: sizes other than zero go through `Math.log` and `toFixed`. They are a parameter.
- The outcome of `FileReader` is a parameter (text or error message). Progress events are left out.
- `readLargeFile`, `validateJSONFile`, `getFileInfo`, `createDownloadLink`, `downloadJSON`'s DOM work and `copyToClipboard` are left out. They are browser I/O; only the download name is modelled.
- DOM events, `preventDefault` and React hooks are reduced to the data they carry. The hook's registry is a value threaded through the operations.
- Shortcuts.RunHandler models the handlers' effect on the store only. Calls into the JSON processor (format, minify, copy, save) return the store unchanged.
- Shortcuts.KeyLabel: inherited properties of the JavaScript key map (such as `constructor`) are not modelled.
- Shortcuts.HandleKeyDown: the handler map is a set of action names with own entries only. In the source, `handlersRef.current[shortcut.action]` also finds inherited properties of `Object.prototype`, so a shortcut whose action is `toString` would call that function.
- HighlightMarkup.FixedMarksKeys: it is stated for token sequences with the kinds and texts of a value's rendering without white space. White space tokens leave the state alone in both classifiers, but no lemma covers them. Only the `{"a":"b"}` case is linked to the tokenizer's own output.
- The `console.error` calls and the `onError` callbacks are left out. The error itself is modelled as a result.
- Store: partial updates are `Option` fields. An explicit `undefined` in a partial object, which would overwrite a field, is not modelled.
- Store.SetValidationResult uses the truthiness of the data, modelled by `Truthy`.
- `getSyntaxColor`, the sample generator, the React components and `App` are outside the core.
- Metrics.CalculateStatistics takes the processing time as given.
- ValidatorScan.ParseWithLineNumbers: its tokens are those of the loop as written. The contracts state their texts, kinds and order (`ScanSameTokens`, `ParseTokensOccur`), not their lines and columns, which the loop gets wrong (see Findings).

## Findings

| source | as written | input that shows it | evidently intended | confidence | as-written member | corrected member |
|---|---|---|---|---|---|---|
| src/utils/json5Parser.ts:87-128 | In `stripComments`, the string scan stops on the closing quote without moving past it. The outer loop then reads that quote again as an opening quote. | `"ab"` comes out as `"ab""` | String literals are copied unchanged | high, not executed | Json5.StripLiteralGrows | Json5Fixed.StripKeepsLiteral |
| src/utils/json5Parser.ts:152-162 | `stripTrailingCommas` has the same quote handling | `"ab"` comes out as `"ab""` | String literals are copied unchanged | high, not executed | Json5Commas.CommasLiteralGrows | Json5Fixed.CommasKeepLiteral |
| src/utils/json5Parser.ts:192-222 | `unquoteKeys` has the same quote handling | `"ab"` comes out as `"ab""` | String literals are copied unchanged | high, not executed | Json5Keys.KeysLiteralGrows | Json5Fixed.KeysKeepLiteral |
| src/utils/json5Parser.ts:17-29 | `parseJSON5` runs the three passes, and each one doubles every quote after the first | `parseJSON5('"abc"')` hands `"abc"` followed by seven more quotes to the native parse | A string literal reaches the parse as written | high, not executed | Json5Parse.PreprocessLiteral | Json5Parse.PreprocessFixedLiteral |
| src/utils/syntaxHighlighter.ts:289-291 | After `:` the key flag becomes true, and after `,` it becomes false. | In `{"a":"b"}` the value `"b"` is marked as a key | Keys after `{`, or after `,` inside an object, are marked as keys; values and array elements are marked as strings | high, not executed | HighlightMarkup.PairKindsAsWritten | HighlightMarkup.FixedMarksKeys |
| src/utils/jsonValidator.ts:245-257 | A number's column is computed as `currentColumn - (i - tokenStart)`, but the scan moved `i` without advancing `currentColumn`. | `1` gets column 0 | The column of the token's first character (1) | medium, not executed | ValidatorScan.NumberColumnAsWritten | ValidatorScan.ParseTokensPlaced |
| src/utils/jsonValidator.ts:342-369 | `stripJSON5Comments` does not skip string literals | `{"u":"a//b"}` loses `//b"}` | Comment markers inside strings are kept | high, not executed | ValidatorScan.StripCutsString | ValidatorScan.FixedStripKeepsString |
| src/hooks/useKeyboardShortcuts.ts:184-194 | `disableShortcut` mutates the shared default object, and `resetShortcuts` restores the same objects. | `disableShortcut("copy")` followed by `resetShortcuts()` leaves copy disabled | A reset restores the enabled defaults | high, not executed | Shortcuts.DisabledSurvivesReset | Shortcuts.ResetFixed |
| src/utils/fileHandler.ts:98-115 | The returned `isDragging` is a copy of the local flag taken at creation | After a drag-over event the exposed value is still `false` | The flag follows the drag events | medium, not executed | Files.ExposedDraggingStale | Files.ExposedDraggingFixed |

Two behaviours look odd but are kept as written, because their intent is unclear:

- `stringifyJSON5` ignores `singleQuotes`, since the second `replace` undoes the first, and it turns apostrophes inside strings into double quotes (`Json5Parse.StringValueRequoted`).
- Both JSON5 comment passes keep the last character of an unclosed block comment (`Json5.StripUnclosedBlock`).
