# Iridium / Velox core: JSON engine and utilities in Dafny

This project models the JSON engine and a few utility classes of the
Iridium and Velox .NET libraries, and proves properties of the model.

**JSON engine.** The model has four layers.

- **Tokenizer.** `Tokenizer.StringCharFeeder` and `Tokenizer.JsonTokenizer`
  are classes over the input string. They are proved against the lexing
  functions of `JsonLexer`. Those functions read from the characters still
  to be tokenized. A pushed-back character reads first; end of input reads
  as `'\0'`.
- **Parsers.** There are two recursive-descent parsers:
  - the current one (`JsonParser`) builds the mutable `DynamicJson.Json` tree;
  - the older one (`LegacyParser`) builds the immutable `ImmutableJson.Node`.

  Each parser is a class whose methods are proved to agree with a family of
  parsing functions over a token state. Those functions carry the facts
  about typed binding, untyped dictionaries, trailing commas and error
  messages.
- **Three JsonObject revisions.**
  - The mutable one (`DynamicJson`) creates nodes on writes through dotted
    and bracketed paths.
  - The immutable one of Iridium-Core (`ImmutableJson`) looks a path up
    longest-key first.
  - Velox's immutable one (`VeloxJson`) reuses that lookup and differs only
    in `IsValue` and `Value`.
- **Json2.** `Json2` covers the Json.Value hierarchy, its builders and its
  serializer. The test fixture holds a copy of Json2; the code is the same,
  so it is modelled once. `Json2Examples` follows the fixture's `Dummy` usage.

**Utilities.**

- `SafeDictionaries` is SafeDictionary. The Iridium and Velox copies are
  the same code.
- `Services` is ServiceRepository.
- `CoreExtensions` holds IsIn, IndexIn, ForEach and ConvertAll.
- `IntegerTokens` is Velox's IntegerTokenMatcher.

**Modelling conventions.**

- A C# reference that may be null is an `Option`.
- An exception is an `Err` of `Results.Error`.
- Reflection over a target type reads a `HostTypes.TypeTable` of its
  members.
- `As`/`Convert` results are symbolic `Conversion` values.

Where the repository's unit tests and its code disagree, the model follows
the code. `CoreExtensionsTest.cs` calls `IsIn`/`IndexIn` with a null source
and expects a result, but the code throws `ArgumentNullException`. That test
file also expects `ArgumentNullException` for `IndexIn` over a null list,
but the code's `foreach` dereferences the list and throws
`NullReferenceException`. `CoreExtensions.IndexInSequence` states what the
code does.

## Model

| member | source | states |
|---|---|---|
| Tokenizer.StringCharFeeder.constructor | Iridium-Core/Json/JsonTokenizer.cs:62-66 | a new feeder has the whole input pending, nothing pushed back |
| Tokenizer.StringCharFeeder.ReadNext | Iridium-Core/Json/JsonTokenizer.cs:68-71 | the next code unit and one step on, or -1 at the end with the position unchanged |
| Tokenizer.StringCharFeeder.Next | Iridium-Core/Json/JsonTokenizer.cs:32-49 | the character returned and the characters left are exactly one `Read` of what was pending: a pushed-back character first, `'\0'` at end of input |
| Tokenizer.StringCharFeeder.Backtrack | Iridium-Core/Json/JsonTokenizer.cs:51-54 | the current character is pending again, once; a second backtrack changes nothing |
| Tokenizer.JsonTokenizer.constructor | Iridium-Core/Json/JsonTokenizer.cs:13-16 | the tokenizer reads from a fresh feeder over the whole input |
| Tokenizer.JsonTokenizer.NextToken | Iridium-Core/Json/JsonTokenizer.cs:112-142 | the token and the remaining input, or the error, are those `JsonLexer.Lex` gives for the pending input, strings decoded by the corrected decoder (see Findings) |
| Tokenizer.JsonTokenizer.ReadKeyword | Iridium-Core/Json/JsonTokenizer.cs:144-164 | agrees with `ScanKeyword` from the first letter: the keyword's token or the exception (corrected guard, see Findings) |
| Tokenizer.JsonTokenizer.ReadNumber | Iridium-Core/Json/JsonTokenizer.cs:166-191 | agrees with `ScanNumber`: digits and at most one '.', an Integer or Float token, the stop character pushed back |
| Tokenizer.JsonTokenizer.ReadStringToken | Iridium-Core/Json/JsonTokenizer.cs:193-238 | agrees with `ScanRaw` then `StringToken`: the raw text up to the first unescaped quote, decoded by the corrected single-pass decoder rather than the chain of replaces (see Findings); end of input throws |
| JsonLexer.Read | Iridium-Core/Json/JsonTokenizer.cs:40-45 | end of input reads as `'\0'` with nothing left; otherwise the head and the tail |
| JsonLexer.Push | Iridium-Core/Json/JsonTokenizer.cs:51-54 | reading after a push gives back the pushed character and the previous input |
| JsonLexer.ScanNumber | Iridium-Core/Json/JsonTokenizer.cs:166-191 | the scan never lengthens the input |
| JsonLexer.ScanKeyword | Iridium-Core/Json/JsonTokenizer.cs:144-164 | a success is a keyword token without text that consumes at most the input (corrected guard, see Findings: a word that is no keyword throws here and loops without end as written) |
| JsonLexer.ScanRaw | Iridium-Core/Json/JsonTokenizer.cs:199-216 | a success consumes at least the closing quote; the only failure is the end-of-input exception |
| JsonLexer.CombineSurrogates | Iridium-Core/Json/JsonTokenizer.cs:224-227 | a high and a low surrogate combine to a supplementary code point |
| JsonLexer.Lex | Iridium-Core/Json/JsonTokenizer.cs:112-142 | every token is well formed; only EOF may consume nothing; a keyword goes through the corrected guard and a string's text is that of the corrected decoder (see Findings) |
| JsonLexer.LexToken | Iridium-Core/Json/JsonTokenizer.cs:121-140 | the dispatch on the first non-blank character gives a well-formed token; a keyword goes through the corrected guard and a string's text is that of the corrected decoder (see Findings) |
| JsonLexer.LexString | Iridium-Core/Json/JsonTokenizer.cs:127-130 | a string start gives a String token with text, past the closing quote, decoded by the corrected decoder (see Findings) |
| JsonLexerFacts.EndOfInput | Iridium-Core/Json/JsonTokenizer.cs:140 | empty input gives the EOF token |
| JsonLexerFacts.SkipsWhitespace | Iridium-Core/Json/JsonTokenizer.cs:118-119 | leading white space does not change the token read |
| JsonLexerFacts.FirstCharacter | Iridium-Core/Json/JsonTokenizer.cs:121-140 | a structural character is its token; an unknown character is EOF, '-' included |
| JsonLexerFacts.NumberScanText | Iridium-Core/Json/JsonTokenizer.cs:172-183 | the number text is the longest run of digits and at most one '.' |
| JsonLexerFacts.NumberScanStop | Iridium-Core/Json/JsonTokenizer.cs:184-189 | the scan stops at the first non-digit or second '.', which stays unread |
| JsonLexerFacts.NumberToken | Iridium-Core/Json/JsonTokenizer.cs:131-134 | a digit starts an Integer token, or a Float one exactly when a '.' was read |
| JsonLexerFacts.KeywordFacts | Iridium-Core/Json/JsonTokenizer.cs:105-110 | the keywords are letters only and none extends another |
| JsonLexerFacts.KeywordScanFound | Iridium-Core/Json/JsonTokenizer.cs:150-160 | letters that complete a keyword give that keyword's token and stop there |
| JsonLexerFacts.KeywordScan | Iridium-Core/Json/JsonTokenizer.cs:144-164 | the scan succeeds iff some prefix of the input completes a keyword, and then yields exactly that keyword |
| JsonLexerFacts.EscapeStep | Iridium-Core/Json/JsonTokenizer.cs:206-214 | the escape flag after a character: on iff a backslash follows an unescaped position |
| JsonLexerFacts.QuotesStep | Iridium-Core/Json/JsonTokenizer.cs:215 | a quote inside the body must be escaped |
| JsonLexerFacts.RawScanSound | Iridium-Core/Json/JsonTokenizer.cs:199-236 | the raw text is followed by a quote in the input and has every inner quote escaped |
| JsonLexerFacts.RawScanComplete | Iridium-Core/Json/JsonTokenizer.cs:199-236 | a closed body followed by a quote is always scanned to that quote |
| JsonLexerFacts.RawScan | Iridium-Core/Json/JsonTokenizer.cs:193-238 | the scan yields `(raw, rest)` iff the input is raw, a quote and rest, with raw a closed string body |
| JsonLexerFacts.UnescapeVerbatim | Iridium-Core/Json/JsonTokenizer.cs:217 | text without a backslash is kept verbatim |
| JsonLexerFacts.TestEscapes | Iridium-Core-Test/Tests/Json/JSONParserFixture.cs:154-163 | the escapes `\n`, `\t`, `\\` and `\u00aa` decode to line feed, tab, backslash and ª |
| Text.IndexOf | src/Iridium-Core/Json/JsonObject.cs:253-254 | -1 iff the character is absent, else its first position |
| Text.Hex4Value | Iridium-Core/Json/JsonTokenizer.cs:224-227 | four hex digits name a UTF-16 code unit |
| Text.FormatHex4 | src/Iridium-Core/Json/Json2.cs:161 | the four upper-case hex digits read back as the value |
| JsonParser.Start | src/Iridium-Core/Json/JsonParser.cs:51-56 | the first token is well formed and the progress measure is bounded by the input |
| JsonParser.Advance | src/Iridium-Core/Json/JsonParser.cs:60-63 | moving to the next token strictly decreases the progress measure unless at EOF |
| JsonParser.Initial | src/Iridium-Core/Json/JsonParser.cs:75-86 | a typed object starts as an instance of its type with no members, an untyped one as an empty dictionary |
| JsonParser.ParsedValue | src/Iridium-Core/Json/JsonParser.cs:147-205 | a value consumes tokens and leaves a well-formed current token |
| JsonParser.ParsedObject | src/Iridium-Core/Json/JsonParser.cs:66-137 | an object consumes at least its braces |
| JsonParser.CloseObject | src/Iridium-Core/Json/JsonParser.cs:131-136 | succeeds only after a successful member loop, consuming the '}'; the node holds the loop's members unchanged (the error side is `JsonParserFacts.CloseErrors`) |
| JsonParser.ParsedMembers | src/Iridium-Core/Json/JsonParser.cs:90-129 | the member loop keeps the accumulator of the right kind |
| JsonParser.ParsedMember | src/Iridium-Core/Json/JsonParser.cs:95-128 | one member consumes at least its name and keeps the accumulator's kind |
| JsonParser.ParsedArray | src/Iridium-Core/Json/JsonParser.cs:247-285 | an array consumes at least its brackets |
| JsonParser.CloseArray | src/Iridium-Core/Json/JsonParser.cs:274-284 | succeeds only after a successful element loop, consuming the ']'; the node holds the loop's elements, converted for an array type (the error side is `JsonParserFacts.CloseErrors`) |
| JsonParser.ParsedElements | src/Iridium-Core/Json/JsonParser.cs:261-272 | the element loop makes progress |
| JsonParser.ParsedNumber | src/Iridium-Core/Json/JsonParser.cs:207-232 | a number token gives a number node |
| JsonParser.ParsedString | src/Iridium-Core/Json/JsonParser.cs:235-245 | a string node carries the token's text, and succeeds iff the current token is a string |
| JsonParser.Parser.constructor | src/Iridium-Core/Json/JsonParser.cs:34-37 | the parser's tokenizer is fresh over the whole input |
| JsonParser.Parser.NextToken | src/Iridium-Core/Json/JsonParser.cs:60-63 | the parser's position advances exactly as `Advance` says |
| JsonParser.Parser.ParseValue | src/Iridium-Core/Json/JsonParser.cs:147-205 | the result and the new position agree with `ParsedValue` |
| JsonParser.Parser.ParseObject | src/Iridium-Core/Json/JsonParser.cs:66-137 | the result and the new position agree with `ParsedObject` |
| JsonParser.Parser.ParseMembers | src/Iridium-Core/Json/JsonParser.cs:90-130 | the member loop's result and the position it stops at agree with `ParsedMembers` |
| JsonParser.Parser.ParseMember | src/Iridium-Core/Json/JsonParser.cs:95-123 | the result and the new position agree with `ParsedMember` |
| JsonParser.Parser.ParseArray | src/Iridium-Core/Json/JsonParser.cs:247-285 | the result and the new position agree with `ParsedArray` |
| JsonParser.Parser.ParseElements | src/Iridium-Core/Json/JsonParser.cs:261-273 | the element loop's list and the position it stops at agree with `ParsedElements` |
| JsonParser.Parser.ParseNumber | src/Iridium-Core/Json/JsonParser.cs:207-232 | the result and the new position agree with `ParsedNumber` |
| JsonParser.Parser.ParseString | src/Iridium-Core/Json/JsonParser.cs:235-245 | the result and the new position agree with `ParsedString` |
| JsonParser.CreateArray | src/Iridium-Core/Json/JsonParser.cs:279-282 | a fresh array holding the list's elements in order |
| JsonParser.ParseJson | src/Iridium-Core/Json/JsonParser.cs:12-15 | the parse result is `Parse` of the text |
| JsonParser.ParseJsonAs | src/Iridium-Core/Json/JsonParser.cs:22-25 | the typed parse result is `ParseAs` of the text |
| JsonParserFacts.ValueIsUntyped | src/Iridium-Core/Json/JsonParser.cs:183-204 | without a target type every value parsed holds only dictionaries, node arrays and scalars |
| JsonParserFacts.ObjectIsUntyped | src/Iridium-Core/Json/JsonParser.cs:122 | an untyped object is a dictionary of untyped nodes |
| JsonParserFacts.MembersAreUntyped | src/Iridium-Core/Json/JsonParser.cs:90-129 | the untyped member loop keeps the dictionary untyped |
| JsonParserFacts.MemberIsUntyped | src/Iridium-Core/Json/JsonParser.cs:120-123 | one untyped member keeps the dictionary untyped |
| JsonParserFacts.ArrayIsUntyped | src/Iridium-Core/Json/JsonParser.cs:249-252 | an untyped array holds untyped nodes |
| JsonParserFacts.ElementsAreUntyped | src/Iridium-Core/Json/JsonParser.cs:261-272 | the element loop keeps the elements untyped |
| JsonParserFacts.TypedMembersFit | src/Iridium-Core/Json/JsonParser.cs:107-118 | every member a typed object sets is a member of the type found ignoring case |
| JsonParserFacts.TypedMemberFits | src/Iridium-Core/Json/JsonParser.cs:107-118 | one typed member is set only when the type has it; unknown names are skipped |
| JsonParserFacts.ParseAsFits | src/Iridium-Core/Json/JsonParser.cs:22-25 | `Parse<T>` of an object text yields an instance of T holding only T's members |
| JsonParserFacts.MemberValueTokens | src/Iridium-Core/Json/JsonParser.cs:189-240 | a string member needs a String token ("Expected string"), a numeric one an Integer or Float token ("Number expected"), an object one a '{' ("Expected {"); a bool member is true iff the token is `true` |
| JsonParserFacts.TypedMemberSets | src/Iridium-Core/Json/JsonParser.cs:95-118 | a typed member reads a name, a colon and a value; the first member matching ignoring case is set to the value converted to its type and the other members are unchanged; an unmatched name leaves the instance as it was |
| JsonParserFacts.UnmatchedNameNeedsObject | src/Iridium-Core/Json/JsonParser.cs:115-118 | an unmatched name's value is parsed as an object: any other value throws "Expected {" |
| JsonParserFacts.MatchedMembers | src/Iridium-Core/Json/JsonParser.cs:109 | a member name is picked iff some property name matches it first ignoring case |
| JsonParserFacts.MatchedAppend | src/Iridium-Core/Json/JsonParser.cs:90-129 | the members picked by two runs of names are those picked by either |
| JsonParserFacts.TypedMemberKeys | src/Iridium-Core/Json/JsonParser.cs:107-118 | one typed member adds exactly the member its name matches, if any |
| JsonParserFacts.TypedMembersSet | src/Iridium-Core/Json/JsonParser.cs:90-129 | the loop ends with exactly the members it began with plus those the property names matched |
| JsonParserFacts.ParseAsSets | src/Iridium-Core/Json/JsonParser.cs:22-25 | `Parse<T>` sets exactly the members of T that some property name of the object matches ignoring case |
| JsonParserFacts.ParseIsUntyped | src/Iridium-Core/Json/JsonParser.cs:12-15 | `Parse` yields an untyped tree |
| JsonParserFacts.TrailingCommaBeforeBrace | src/Iridium-Core/Json/JsonParser.cs:125-128 | a comma right before '}' is accepted and the object closes |
| JsonParserFacts.TrailingCommaBeforeBracket | src/Iridium-Core/Json/JsonParser.cs:265-271 | a comma right before ']' is accepted and the array closes |
| JsonParserFacts.StructureErrors | src/Iridium-Core/Json/JsonParser.cs:68-103 | the messages "Expected {", "Expected property name", "Expected colon" and "Expected [" for the wrong token |
| JsonParserFacts.CloseErrors | src/Iridium-Core/Json/JsonParser.cs:131-132 | the messages "Expected }" and "Expected ]" when a loop ends on another token |
| JsonParserFacts.LastKeyWins | src/Iridium-Core/Json/JsonParser.cs:122 | a repeated key in untyped mode overwrites: the dictionary holds the last value |
| JsonParserFacts.UntypedDispatch | src/Iridium-Core/Json/JsonParser.cs:151-181 | null gives a null node that is not undefined; a token that cannot start a value gives "Unexpected token" and its name |
| JsonParserExamples.EmptyArrayText | src/Iridium-Core/Json/JsonParser.cs:254-284 | "[]" parses to an empty node array |
| JsonParserExamples.EmptyObjectText | src/Iridium-Core-Test/Tests/Json/JSONParserFixture.cs:76-82 | "{}" parses to an object with no keys |
| JsonParserExamples.EmptyText | src/Iridium-Core/Json/JsonParser.cs:178-179 | empty text fails with "Unexpected token EOF" |
| JsonParserExamples.TrailingComma | src/Iridium-Core-Test/Tests/Json/JSONParserFixture.cs:268-276 | `{"x":1,}` parses to an object whose x is the Int32 1 |
| LegacyParser.LegacyValue | Iridium-Core/Json/JsonParser.cs:152-210 | a value consumes tokens and leaves a well-formed current token |
| LegacyParser.LegacyObject | Iridium-Core/Json/JsonParser.cs:68-142 | an object consumes at least its braces |
| LegacyParser.CloseLegacyObject | Iridium-Core/Json/JsonParser.cs:136-141 | succeeds only after a successful member loop, consuming the '}'; the node holds the loop's members unchanged |
| LegacyParser.LegacyMembers | Iridium-Core/Json/JsonParser.cs:87-134 | the member loop keeps the accumulator of the right kind |
| LegacyParser.LegacyMember | Iridium-Core/Json/JsonParser.cs:92-133 | one member consumes at least its name and keeps the accumulator's kind |
| LegacyParser.LegacyArray | Iridium-Core/Json/JsonParser.cs:246-284 | an array consumes at least its brackets |
| LegacyParser.CloseLegacyArray | Iridium-Core/Json/JsonParser.cs:273-283 | succeeds only after a successful element loop, consuming the ']'; the node holds the loop's elements, converted for an array type |
| LegacyParser.LegacyElements | Iridium-Core/Json/JsonParser.cs:260-271 | the element loop makes progress |
| LegacyParser.LegacyNumber | Iridium-Core/Json/JsonParser.cs:212-231 | a number token gives a number node |
| LegacyParser.LegacyString | Iridium-Core/Json/JsonParser.cs:234-244 | a string node carries the token's text, and succeeds iff the current token is a string |
| LegacyParser.Parser.constructor | Iridium-Core/Json/JsonParser.cs:36-39 | the parser's tokenizer is fresh over the whole input |
| LegacyParser.Parser.NextToken | Iridium-Core/Json/JsonParser.cs:62-65 | the parser's position advances exactly as `Advance` says |
| LegacyParser.Parser.ParseValue | Iridium-Core/Json/JsonParser.cs:152-210 | the result and the new position agree with `LegacyValue` |
| LegacyParser.Parser.ParseObject | Iridium-Core/Json/JsonParser.cs:68-142 | the result and the new position agree with `LegacyObject` |
| LegacyParser.Parser.ParseMembers | Iridium-Core/Json/JsonParser.cs:87-134 | the member loop's result and the position it stops at agree with `LegacyMembers` |
| LegacyParser.Parser.ParseMember | Iridium-Core/Json/JsonParser.cs:92-128 | the result and the new position agree with `LegacyMember` |
| LegacyParser.Parser.ParseArray | Iridium-Core/Json/JsonParser.cs:246-284 | the result and the new position agree with `LegacyArray` |
| LegacyParser.Parser.ParseElements | Iridium-Core/Json/JsonParser.cs:260-272 | the element loop's list and the position it stops at agree with `LegacyElements` |
| LegacyParser.Parser.ParseNumber | Iridium-Core/Json/JsonParser.cs:212-231 | the result and the new position agree with `LegacyNumber` |
| LegacyParser.Parser.ParseString | Iridium-Core/Json/JsonParser.cs:234-244 | the result and the new position agree with `LegacyString` |
| LegacyParser.CreateNodeArray | Iridium-Core/Json/JsonParser.cs:278-281 | a fresh array holding the list's elements in order |
| LegacyParser.ParseJson | Iridium-Core/Json/JsonParser.cs:14-17 | the parse result is `LegacyParse` of the text |
| LegacyParser.ParseJsonAs | Iridium-Core/Json/JsonParser.cs:24-27 | the typed parse result is `LegacyParseAs` of the text |
| LegacyParser.ParseJsonLike | Iridium-Core/Json/JsonParser.cs:29-32 | the prototype is ignored: the result is the typed parse |
| LegacyParserFacts.LegacyMembersFit | Iridium-Core/Json/JsonParser.cs:104-123 | every member a typed object sets is a member of the type with that exact name |
| LegacyParserFacts.LegacyMemberFits | Iridium-Core/Json/JsonParser.cs:104-123 | one typed member is set only under its exact name, a property before a field |
| LegacyParserFacts.LegacyParseAsFits | Iridium-Core/Json/JsonParser.cs:24-27 | `Parse<T>` of an object text yields an instance of T holding only T's members |
| LegacyParserFacts.LegacyValueTokens | Iridium-Core/Json/JsonParser.cs:194-240 | a string member needs a String token ("Expected string"), a numeric one an Integer or Float token ("Number expected"), an object one a '{' ("Expected {"); a bool member is true iff the token is `true` |
| LegacyParserFacts.LegacyMemberSets | Iridium-Core/Json/JsonParser.cs:92-123 | a typed member reads a name, a colon and a value; the property of that exact name, else the field, is set to the value converted to its type and the other members are unchanged; a name no member has leaves the instance as it was |
| LegacyParserFacts.LegacyUnmatchedNeedsObject | Iridium-Core/Json/JsonParser.cs:120-123 | a name no member has is parsed as an object: any other value throws "Expected {" |
| LegacyParserFacts.ExactMatches | Iridium-Core/Json/JsonParser.cs:106-109 | a name is picked iff it is among the names and some member has exactly that name |
| LegacyParserFacts.ExactAppend | Iridium-Core/Json/JsonParser.cs:92-133 | the names picked from two runs of names are those picked from either |
| LegacyParserFacts.LegacyMemberKeys | Iridium-Core/Json/JsonParser.cs:104-123 | one typed member adds exactly its name when a member has it |
| LegacyParserFacts.LegacyMembersSet | Iridium-Core/Json/JsonParser.cs:92-133 | the loop ends with exactly the members it began with plus the property names some member has exactly |
| LegacyParserFacts.LegacyParseAsSets | Iridium-Core/Json/JsonParser.cs:24-27 | `Parse<T>` sets exactly the members of T whose exact name occurs as a property name of the object |
| LegacyParserFacts.LegacyNull | Iridium-Core/Json/JsonParser.cs:165-167 | null gives a node that is null and not empty |
| LegacyParserFacts.IntegerWidths | Iridium-Core/Json/JsonParser.cs:219-222 | an integer the older parser keeps as Int64 is narrowed to Int32 by the newer one when it fits |
| LegacyParserFacts.LegacyTrailingComma | Iridium-Core/Json/JsonParser.cs:130-133 | a comma right before '}' is accepted |
| LegacyParserFacts.LegacyTrailingArrayComma | Iridium-Core/Json/JsonParser.cs:264-270 | a comma right before ']' is accepted |
| HostTypes.FirstIgnoreCase | src/Iridium-Core/Json/JsonParser.cs:109 | the first member whose name equals ignoring case, None iff there is none |
| HostTypes.PropertyOrField | Iridium-Core/Json/JsonParser.cs:106-107 | a property of that exact name wins over a field; None iff no member has the name |
| HostTypes.ChangeType | src/Iridium-Core/Json/JsonParser.cs:231 | the number converted to the target type; OverflowException iff an integer does not fit it |
| HostTypes.Int64Parse | Iridium-Core/Json/JsonParser.cs:219-222 | succeeds iff the text is digits whose value fits an Int64 |
| JsonValues.Lookup | Iridium-Core/Json/JsonObject.cs:149 | None iff the key is not among the entries' keys |
| JsonValues.Put | src/Iridium-Core/Json/JsonParser.cs:122 | the key reads back the new value and every other key is unchanged |
| JsonValues.PutKeys | src/Iridium-Core/Json/JsonObject.cs:232 | a new key goes last in the key order; an existing one keeps its place |
| JsonValues.PutUnique | src/Iridium-Core/Json/JsonParser.cs:122 | keys stay unique after a write |
| JsonValues.LookupMember | src/Iridium-Core/Json/JsonObject.cs:334 | a key that is found is found in one of the entries |
| JsonValues.LookupByPosition | src/Iridium-Core/Json/JsonObject.cs:350-355 | with unique keys, the i-th key looks up the i-th value |
| DynamicJson.Value | src/Iridium-Core/Json/JsonObject.cs:64 | the payload for a value, null otherwise |
| DynamicJson.Undefined | src/Iridium-Core/Json/JsonObject.cs:66 | the undefined node is null-or-empty and not null |
| DynamicJson.EmptyObject | src/Iridium-Core/Json/JsonObject.cs:67 | an object with no entries |
| DynamicJson.EmptyArray | src/Iridium-Core/Json/JsonObject.cs:68 | an array with no items |
| DynamicJson.FromValue | src/Iridium-Core/Json/JsonObject.cs:69 | a defined node holding the payload, valid iff the payload's children are |
| DynamicJson.ExactlyOneKind | src/Iridium-Core/Json/JsonObject.cs:58-63 | every node is exactly one of object, array, value, undefined; null is a value |
| DynamicJson.AsArray | src/Iridium-Core/Json/JsonObject.cs:212-215 | the items iff the node is an array |
| DynamicJson.AsArrayOf | src/Iridium-Core/Json/JsonObject.cs:217-223 | each item converted, in order; an empty array for a non-array |
| DynamicJson.HasFieldIsKey | src/Iridium-Core/Json/JsonObject.cs:230-232 | HasField holds iff the name is among Keys |
| DynamicJson.At | src/Iridium-Core/Json/JsonObject.cs:240-249 | the item in range; IndexOutOfRange iff an array and a negative index; Undefined otherwise |
| DynamicJson.EnumerateFollowsKeys | src/Iridium-Core/Json/JsonObject.cs:350-359 | an object enumerates its children in key order |
| DynamicJson.EnumerateLeaf | src/Iridium-Core/Json/JsonObject.cs:360-367 | undefined enumerates nothing and a value enumerates itself |
| DynamicJson.SplitKey | src/Iridium-Core/Json/JsonObject.cs:253-268 | the split at the first '.' or '[' leaves a shorter rest and a plain first segment |
| DynamicJson.Child | src/Iridium-Core/Json/JsonObject.cs:332-337 | the entry under the key, Undefined when absent |
| DynamicJson.Grown | src/Iridium-Core/Json/JsonObject.cs:305-316 | the array extended to hold the index, the new slots Undefined |
| DynamicJson.GrowArray | src/Iridium-Core/Json/JsonObject.cs:305-316 | the fresh copied array equals `Grown` of the old contents |
| DynamicJson.ReadAfterWrite | src/Iridium-Core/Json/JsonObject.cs:236-237 | reading a path just written gives the value written, or Undefined for a path the write cannot attach |
| DynamicJson.ReadUndefined | src/Iridium-Core/Json/JsonObject.cs:332-347 | every path below an undefined node reads Undefined |
| DynamicJson.ReadComposes | src/Iridium-Core/Json/JsonObject.cs:270-284 | reading a dotted path is reading its first segment and then the rest |
| DynamicJson.Siblings | src/Iridium-Core/Json/JsonObject.cs:272-283 | a write under one first key leaves a path under another first key unchanged |
| DynamicJson.WriteElement | src/Iridium-Core/Json/JsonObject.cs:298-321 | a write through `[i]` grows the array to hold i and writes into the element |
| DynamicJson.WriteThroughElementResetsIt | src/Iridium-Core/Json/JsonObject.cs:317-320 | a write through an existing element replaces it by a new object, losing its other fields |
| DynamicJson.WriteFirstElement | src/Iridium-Core/Json/JsonObject.cs:298-327 | writing `[0]x` creates an array of one object holding x |
| DynamicJson.ReadFirstElement | src/Iridium-Core/Json/JsonObject.cs:286-291 | `[0]x` reads field x of element 0 |
| DynamicJson.WriteKeepsValid | src/Iridium-Core/Json/JsonObject.cs:251-348 | a write keeps the whole tree valid: at every depth no dictionary repeats a key and every undefined node holds null |
| DynamicJson.DescendKeepsValid | src/Iridium-Core/Json/JsonObject.cs:272-283 | a write through a dotted path keeps the whole tree valid |
| DynamicJson.BracketKeepsValid | src/Iridium-Core/Json/JsonObject.cs:289-330 | a write through an array index keeps the whole tree valid |
| DynamicJson.BracketWritten | src/Iridium-Core/Json/JsonObject.cs:289-330 | an indexed write stores the written child in the grown or reset array, and leaves the node alone when the index is missing or negative |
| DynamicJson.BracketTargetValid | src/Iridium-Core/Json/JsonObject.cs:298-330 | the child an indexed write stores is valid |
| DynamicJson.StoredValid | src/Iridium-Core/Json/JsonObject.cs:298-321 | a valid child stored in a valid array, grown or reset, gives a valid array |
| DynamicJson.PutKeepsValid | src/Iridium-Core/Json/JsonObject.cs:339-345 | storing a valid child in a valid dictionary keeps it valid |
| DynamicJson.DescendValid | src/Iridium-Core/Json/JsonObject.cs:272-283 | the child a dotted path goes through, created Undefined when missing, is valid, and so is its dictionary |
| DynamicJson.ElementsValid | src/Iridium-Core/Json/JsonObject.cs:298-321 | growing an array or resetting one slot keeps its children valid, and so does storing a valid child |
| DynamicJson.NestedRepeatInvalid | src/Iridium-Core/Json/JsonObject.cs:251-348 | validity reaches below the root: a nested dictionary with a repeated key makes the tree invalid |
| DynamicJson.UntypedIsValid | src/Iridium-Core/Json/JsonParser.cs:66-137 | every tree the parser builds without a target type is valid |
| DynamicJson.JsonObject.constructor | src/Iridium-Core/Json/JsonObject.cs:39-42 | a node holding the payload |
| DynamicJson.JsonObject.Set | src/Iridium-Core/Json/JsonObject.cs:71-75 | the node takes the other node's state |
| DynamicJson.JsonObject.GetItem | src/Iridium-Core/Json/JsonObject.cs:236 | the string indexer's get is `Read` of the path |
| DynamicJson.JsonObject.SetItem | src/Iridium-Core/Json/JsonObject.cs:237 | the new state is `Write` of the old one; a valid tree stays valid at every depth, and the path reads back the value |
| ImmutableJson.Value | Iridium-Core/Json/JsonObject.cs:50 | the payload for a value, null otherwise |
| ImmutableJson.Kinds | Iridium-Core/Json/JsonObject.cs:44-52 | every node is exactly one of object, array, value, empty; null is not empty |
| ImmutableJson.AsArrayOf | Iridium-Core/Json/JsonObject.cs:134-140 | each item converted, in order; null for a non-array |
| ImmutableJson.Keys | Iridium-Core/Json/JsonObject.cs:147 | exactly the keys present; none for a non-object |
| ImmutableJson.At | Iridium-Core/Json/JsonObject.cs:151-160 | the item in range; IndexOutOfRange iff an array and a negative index; Empty otherwise |
| ImmutableJson.AllKeyParts | Iridium-Core/Json/JsonObject.cs:162-180 | the prefixes of the key ending before a '.', shortest first, ending with the whole key |
| ImmutableJson.AllKeyPartsAre | Iridium-Core/Json/JsonObject.cs:162-180 | a string is among the parts iff it is the whole key or a prefix ending before a '.' |
| ImmutableJson.Reverse | Iridium-Core/Json/JsonObject.cs:187 | the parts in reverse, the same set |
| ImmutableJson.FirstPresent | Iridium-Core/Json/JsonObject.cs:187-203 | the first part present in the dictionary; None iff none is |
| ImmutableJson.FirstPresentIsLongest | Iridium-Core/Json/JsonObject.cs:187-191 | among parts ordered longest first, the one found is the longest present |
| ImmutableJson.CommitsToLongest | Iridium-Core/Json/JsonObject.cs:187-201 | the lookup tries the longest present key part |
| ImmutableJson.LookupCommits | Iridium-Core/Json/JsonObject.cs:189-201 | once a part is present, the lookup is its value, or the rest looked up below it |
| ImmutableJson.LookupMisses | Iridium-Core/Json/JsonObject.cs:184-205 | no part present, or not an object: Empty |
| ImmutableJson.WholeKeyWins | Iridium-Core/Json/JsonObject.cs:193-196 | a key present whole wins over the dotted path |
| ImmutableJson.DottedPath | Iridium-Core/Json/JsonObject.cs:198-200 | when only "a" is present, "a.b" reads as b below a |
| ImmutableJson.NoRetry | Iridium-Core/Json/JsonObject.cs:187-205 | a lookup that fails below a found part gives Empty; a shorter part is not retried |
| ImmutableJson.NoRetryCommits | Iridium-Core/Json/JsonObject.cs:189-201 | "a.b.c" with "a.b" present reads c below it, whatever "a" holds |
| ImmutableJson.Enumerate | Iridium-Core/Json/JsonObject.cs:208-223 | a non-container enumerates itself |
| ImmutableJson.EnumerateMatchesIndexers | Iridium-Core/Json/JsonObject.cs:208-217 | an object enumerates what its keys look up, an array its indexed items |
| VeloxJson.Value | Velox.Core/Json/JsonObject.cs:29 | the raw payload; Iridium-Core's Value agrees on values; a dictionary iff an object |
| VeloxJson.Kinds | Velox.Core/Json/JsonObject.cs:22-27 | IsValue also holds for Empty; still exactly one of object, array, value |
| VeloxJson.EmptyInstance | Velox.Core/Json/JsonObject.cs:126-167 | Empty is a value, enumerates as itself and reads Empty at every path |
| Json2.Kinds | src/Iridium-Core/Json/Json2.cs:18-24 | NoValue is empty and nothing else; NullValue is null and a value; null-or-empty iff one of the two |
| Json2.CreateValue | src/Iridium-Core/Json/Json2.cs:26-40 | a Json.Value is kept; null gives NullValue; anything else a simple value, holding a scalar when boxed |
| Json2.Get | src/Iridium-Core/Json/Json2.cs:276-284 | the field's value when present, NoValue otherwise and on non-objects |
| Json2.At | src/Iridium-Core/Json/Json2.cs:201 | the item in range, NoValue otherwise and on non-arrays |
| Json2.KeyValues | src/Iridium-Core/Json/Json2.cs:286-289 | an object enumerates its keys as string values |
| Json2.EnumerateMatchesIndexers | src/Iridium-Core/Json/Json2.cs:45-48 | an array enumerates its items, an object the keys that look up its values, anything else nothing |
| Json2.AsType | src/Iridium-Core/Json/Json2.cs:214-233 | null for NoValue and objects; a conversion for a simple value; a list of the element type for an array |
| Json2.AsEach | src/Iridium-Core/Json/Json2.cs:226-227 | one converted element per item |
| Json2.AsTyped | src/Iridium-Core/Json/Json2.cs:57-62 | `As<T>` gives default(T) iff `As` gives null, and fails iff it fails |
| Json2.AsArray | src/Iridium-Core/Json/Json2.cs:208-211 | each item converted, in order; empty for a non-array |
| Json2.AsDefault | src/Iridium-Core/Json/Json2.cs:55-67 | NoValue converts to default(T) and an empty array |
| Json2.NewField | src/Iridium-Core/Json/Json2.cs:175-185 | a field with that name and the created value |
| Json2.Array.constructor | src/Iridium-Core/Json/Json2.cs:187-189 | an empty array |
| Json2.Array.Add | src/Iridium-Core/Json/Json2.cs:191-194 | the created value goes last |
| Json2.Object.constructor | src/Iridium-Core/Json/Json2.cs:255-257 | an object with no fields |
| Json2.Object.AddField | src/Iridium-Core/Json/Json2.cs:259-263 | a null field or name is skipped; a duplicate name throws ArgumentException; otherwise the field goes last |
| Json2.Object.Add | src/Iridium-Core/Json/Json2.cs:265-269 | the same for a name and a value created from an object |
| Json2.UnicodeEscape | src/Iridium-Core/Json/Json2.cs:161 | `\u` and four hex digits reading back as the code unit |
| Json2.Utf16 | src/Iridium-Core/Json/Json2.cs:147 | one or two UTF-16 code units per character |
| Json2.Writer.constructor | src/Iridium-Core/Json/Json2.cs:71-73 | an empty output |
| Json2.WriteChar | src/Iridium-Core/Json/Json2.cs:149-164 | the output grows by the character's escape |
| Json2.WriteEscaped | src/Iridium-Core/Json/Json2.cs:143-167 | the output grows by the escaped text |
| Json2.WriteQuoted | src/Iridium-Core/Json/Json2.cs:143-169 | the output grows by the quoted escaped text |
| Json2.SerializeTo | src/Iridium-Core/Json/Json2.cs:88-308 | the output grows by `Serialized` of the value iff that succeeds; otherwise its error |
| Json2.Serialize | src/Iridium-Core/Json/Json2.cs:69-80 | the text is `Serialized` of the value |
| Json2Facts.Utf16Units | src/Iridium-Core/Json/Json2.cs:147 | one unit is the character itself, two are a surrogate pair that combines back to it |
| Json2Facts.UnescapeEscapeChar | src/Iridium-Core/Json/Json2.cs:149-164 | decoding one escaped character gives the character back |
| Json2Facts.EscapeRoundTrip | src/Iridium-Core/Json/Json2.cs:143-167 | decoding the serializer's escaping gives the original text |
| Json2Facts.ClosedEscape | src/Iridium-Core/Json/Json2.cs:143-167 | escaped text never ends a string token early |
| Json2Facts.SerializedStringLexes | Iridium-Core/Json/JsonTokenizer.cs:193-238 | a serialized string is read back as one String token with the original text, by the tokenizer with the corrected decoder (see Findings); as written this fails for backslash-n |
| Json2Facts.SerializedStringParses | src/Iridium-Core/Json/JsonParser.cs:235-245 | a serialized string parses to a string node with the original text, over the corrected decoder (see Findings) |
| Json2Facts.SerializedNullParses | src/Iridium-Core/Json/Json2.cs:110-113 | null serializes to "null", which parses to a null node |
| Json2Examples.AddField | Iridium-Core-Test/Tests/Json/JsonSeralizerTestFixture.cs:203-219 | each initializer entry adds the next field |
| Json2Examples.BuildDummy | Iridium-Core-Test/Tests/Json/JsonSeralizerTestFixture.cs:203-219 | the object initializer builds exactly the seven fields in order |
| Json2Examples.DummyMethod | Iridium-Core-Test/Tests/Json/JsonSeralizerTestFixture.cs:200-238 | x is null and not empty; the keys, the nulls and the nested array as built; j2 is the one-string array |
| Json2Examples.DummyLookups | Iridium-Core-Test/Tests/Json/JsonSeralizerTestFixture.cs:226-227 | the fields are found by name |
| Json2Examples.CopyArray | Iridium-Core-Test/Tests/Json/JsonSeralizerTestFixture.cs:471-487 | the fixture's copy serializes an array the same way: items comma-separated in brackets |
| Json2Examples.CopyObject | Iridium-Core-Test/Tests/Json/JsonSeralizerTestFixture.cs:491-544 | the fixture's copy builds and serializes an object the same way |
| SafeDictionaries.LookupAfterSet | Velox.Core/Core/SafeDictionary.cs:105-114 | writing a key changes the read of that key and of no other |
| SafeDictionaries.LookupAfterRemove | Velox.Core/Core/SafeDictionary.cs:95-98 | a removed key reads as the default; the others are unchanged |
| SafeDictionaries.CountAfterAdd | Velox.Core/Core/SafeDictionary.cs:86-93 | adding a new key adds one to Count |
| SafeDictionaries.CountAfterRemove | Velox.Core/Core/SafeDictionary.cs:86-98 | removing a present key takes one from Count |
| SafeDictionaries.SafeDictionary.constructor | Iridium-Core/Core/SafeDictionary.cs:38-46 | no entries and the given default |
| SafeDictionaries.SafeDictionary.FromDictionary | Iridium-Core/Core/SafeDictionary.cs:48-56 | a copy of the given entries |
| SafeDictionaries.SafeDictionary.Get | Iridium-Core/Core/SafeDictionary.cs:129-132 | the stored value, DefaultValue for a missing key |
| SafeDictionaries.SafeDictionary.Set | Iridium-Core/Core/SafeDictionary.cs:133-136 | the key reads the new value, the others read as before |
| SafeDictionaries.SafeDictionary.Add | Iridium-Core/Core/SafeDictionary.cs:112-115 | throws iff the key is present; otherwise one more entry |
| SafeDictionaries.SafeDictionary.Remove | Iridium-Core/Core/SafeDictionary.cs:117-120 | true iff the key was present; only that key goes |
| SafeDictionaries.SafeDictionary.RemovePair | Iridium-Core/Core/SafeDictionary.cs:103-106 | removes the key iff it holds that value |
| SafeDictionaries.SafeDictionary.TryGetValue | Iridium-Core/Core/SafeDictionary.cs:122-125 | a value iff the key is present; DefaultValue plays no part |
| SafeDictionaries.SafeDictionary.Clear | Iridium-Core/Core/SafeDictionary.cs:88-91 | no entries; every key reads DefaultValue |
| SafeDictionaries.SafeDictionary.SetDefaultValue | Iridium-Core/Core/SafeDictionary.cs:144 | the default changes, the entries do not |
| Services.FirstOfType | Iridium-Core/Core/ServiceRepository.cs:47 | the first registered service of the type; None iff there is none |
| Services.FirstOfTypeAppend | Iridium-Core/Core/ServiceRepository.cs:68-69 | an append never changes a first match that exists |
| Services.ServiceRepository.constructor | Iridium-Core/Core/ServiceRepository.cs:35-36 | nothing registered, nothing cached |
| Services.ServiceRepository.Get | Iridium-Core/Core/ServiceRepository.cs:38-56 | the first service of the type; a hit is served from the cache, a found service is cached, a miss caches nothing |
| Services.ServiceRepository.Register | Iridium-Core/Core/ServiceRepository.cs:58-71 | null throws; a registered instance changes nothing; a new one is appended and the cache cleared; the cache stays consistent |
| Services.RegisterTwice | Iridium-Core/Core/ServiceRepository.cs:38-71 | after registering two implementations, Get answers the first, twice |
| CoreExtensions.IndexOf | Iridium-Core/Core/CoreExtensions.cs:59-62 | the first index of the element, -1 iff it is absent |
| CoreExtensions.IsIn | Iridium-Core/Core/CoreExtensions.cs:41-47 | null throws ArgumentNullException; otherwise true iff the element is in the list |
| CoreExtensions.IndexIn | Iridium-Core/Core/CoreExtensions.cs:57-63 | null throws ArgumentNullException; otherwise the first index holding it, -1 iff absent |
| CoreExtensions.IsInSequence | Iridium-Core/Core/CoreExtensions.cs:49-55 | a null source or list throws; otherwise membership |
| CoreExtensions.IndexInSequence | Iridium-Core/Core/CoreExtensions.cs:65-84 | null source throws ArgumentNullException; a null list NullReferenceException; otherwise the same index as the array form |
| CoreExtensions.IsInIndexIn | Iridium-Core/Core/CoreExtensions.cs:41-63 | IsIn holds iff IndexIn finds a position |
| CoreExtensions.IndexInExamples | Iridium-Core-Test/Tests/CoreExtensionsTest.cs:32-38 | 5 is at index 2 of 3, 4, 5 and 6 is not found |
| CoreExtensions.VisitAppend | Iridium-Core/Core/CoreExtensions.cs:35-39 | visiting a concatenation visits the first part, then the second |
| CoreExtensions.ForEach | Velox.Core/Core/CoreExtensions.cs:52-56 | the action runs once per element, in order |
| CoreExtensions.ConvertAll | Velox.Core/Core/CoreExtensions.cs:39-50 | null throws; otherwise a fresh array of the same length whose i-th element is the converted i-th input |
| IntegerTokens.Respond | Velox.Core/Json/Tokenizer/Tokens/IntegerTokenMatcher.cs:51-67 | Valid iff a digit, or '-' first; Fail iff a first character that is neither |
| IntegerTokens.ResponseAt | Velox.Core/Json/Tokenizer/Tokens/IntegerTokenMatcher.cs:63-66 | only position 0 of a fresh matcher counts as first |
| IntegerTokens.AcceptsIntegerText | Velox.Core/Json/Tokenizer/Tokens/IntegerTokenMatcher.cs:51-67 | a fresh matcher answers Valid to every character iff the text is an optional '-' and digits |
| IntegerTokens.IntegerTokenMatcher.constructor | Velox.Core/Json/Tokenizer/Tokens/IntegerTokenMatcher.cs:34 | a new matcher waits for the first character |
| IntegerTokens.IntegerTokenMatcher.CreateTokenProcessor | Velox.Core/Json/Tokenizer/Tokens/IntegerTokenMatcher.cs:36-39 | a fresh matcher in the initial state |
| IntegerTokens.IntegerTokenMatcher.TranslateToken | Velox.Core/Json/Tokenizer/Tokens/IntegerTokenMatcher.cs:41-44 | the token text unchanged |
| IntegerTokens.IntegerTokenMatcher.ResetState | Velox.Core/Json/Tokenizer/Tokens/IntegerTokenMatcher.cs:46-49 | back to the initial state |
| IntegerTokens.IntegerTokenMatcher.ProcessChar | Velox.Core/Json/Tokenizer/Tokens/IntegerTokenMatcher.cs:51-67 | the answer for the character at this position; afterwards never first |
| IntegerTokens.SecondMinusEndsToken | Velox.Core/Json/Tokenizer/Tokens/IntegerTokenMatcher.cs:55-61 | "-12-" is valid through "-12" and the second '-' ends the token |
| Findings.NeverEnds | Iridium-Core/Json/JsonTokenizer.cs:150-163 | as written, once the word is no keyword prefix the loop never ends |
| Findings.NulNeverEnds | Iridium-Core/Json/JsonTokenizer.cs:150-163 | `nul]`: as written no fuel ends the loop; the corrected scan throws |
| Findings.StringTokenAsWritten | Iridium-Core/Json/JsonTokenizer.cs:217-233 | a string token; text without a backslash is kept as is |
| Findings.EscapedBackslashN | Iridium-Core/Json/JsonTokenizer.cs:217-231 | the serializer's text for backslash-n decodes as written to backslash and line feed, corrected to backslash and n |
| Findings.UpperEscapeUntouched | Iridium-Core/Json/JsonTokenizer.cs:217-231 | as written, text whose one backslash starts `\U` comes out unchanged |
| Findings.UpperUnicodeSkipped | Iridium-Core/Json/JsonTokenizer.cs:224-227 | `\U00AA`: as written kept verbatim, corrected decoded to U+00AA |
| JsonLexerFacts.UnicodeEitherCase | Iridium-Core/Json/JsonTokenizer.cs:226 | a `\u` or `\U` escape of a non-surrogate decodes to its character wherever it occurs |

## Left out

- The stream and reader feeders of the tokenizer are not modelled. Only the string feeder is, and it is the one the parsers use.
- File and stream output is left out. `Serialize(bool)` writes to an in-memory `Writer`, and the UTF-8 byte-order mark is not modelled.
- Reflection (`GetProperty`, `GetField`, `Activator.CreateInstance`, `SetValue`) is replaced by a table of members per host type.
- Type conversion (`Convert`, `As`, `To<int>`) is symbolic. A conversion is a value that records the source and the target type. An index segment reads through a parameter function.
- Number text with a '.' stays text. Single, Double and Decimal are not evaluated, because floating point is not modelled.
- The tokenizer of the src/ tree (the `JsonTokenizer` that src/Iridium-Core/Json/JsonParser.cs:32-36 constructs) is not part of this model. The src/ parser is modelled over the Iridium-Core tokenizer instead. Its number tests (src/Iridium-Core-Test/Tests/Json/JSONParserFixture.cs:289-327) use negative numbers and exponents, which that tokenizer does not read, so they are not modelled.
- The Person and menu tests (Iridium-Core-Test/Tests/Json/JSONParserFixture.cs:111-143) are left out. They are large concrete inputs that depend on floating point and reflection.
- The IntValues test (Iridium-Core-Test/Tests/Json/JSONParserFixture.cs:180-199) is left out because the test and the code disagree. The tokenizer reads '-' as EOF (JsonLexerFacts.FirstCharacter), so `"value3":-1` cannot parse.
- Aliasing is not modelled. The mutable JsonObject is a value tree with a class around the root, so shared nested nodes and shared dictionaries are not captured.
- A lone surrogate escape ("\uD800" alone) is kept as written. A Dafny string cannot hold a lone surrogate.
- The SafeDictionary constructors that take an `IEqualityComparer` are not modelled. Keys compare by Dafny equality.
- SafeDictionary's null keys, `Keys`, `Values`, the enumerator, `CopyTo` and `IsReadOnly` are not modelled. They delegate to `Dictionary` unchanged.
- The lock in ServiceRepository is left out, because concurrency is not modelled.
- A null `params` array for `IsIn`/`IndexIn` is not modelled; the list is a sequence.
- A null list for `ForEach` is not modelled, for the same reason.
- ForEach's action is a function from a state to the next state. ConvertAll's converter is a pure function.
- IntegerTokenMatcher's `fullExpression` and `currentIndex` parameters are not used by the code, so they are not modelled.
- char.IsDigit is modelled on ASCII digits. char.IsLetter is modelled on Latin-1. char.IsWhiteSpace is modelled on Latin-1 plus the other Unicode space separators and the line and paragraph separators (U+1680, U+2000 to U+200A, U+2028, U+2029, U+202F, U+205F, U+3000).
- ImmutableJson.Enumerate: a non-container enumerates as itself, as intended. As written, the value-node branch casts an array enumerator to `IEnumerator<JsonObject>`, and that cast would throw (Iridium-Core/Json/JsonObject.cs:220; the same cast is at Velox.Core/Json/JsonObject.cs:164).
- Tokenizer.JsonTokenizer.NextToken: keywords are read with the corrected guard, so a word such as `nul]` throws where the source loops without end (Findings.NulNeverEnds). Strings are decoded by the corrected single-pass decoder, not the source's chain of replaces. Findings.StringTokenAsWritten models the chain; the texts `\\n`, `\\u0041` and `\U00AA` decode differently.
- Tokenizer.JsonTokenizer.ReadStringToken: the same corrected decoder. See the two decoding rows under Findings.
- JsonLexer.Lex: the same corrected keyword guard, and the same corrected decoder for String tokens.
- JsonLexer.LexToken: the same corrected decoder for String tokens.
- JsonLexer.LexString: the same corrected decoder.
- Json2Facts.SerializedStringLexes: the round trip holds for the corrected decoder only. As written, backslash-n fails (Findings.EscapedBackslashN).
- Json2Facts.SerializedStringParses: the same, over the corrected decoder.
- HostTypes.ChangeType: a double converted to an integer type is always taken to fit. Convert.ChangeType throws OverflowException for a double out of that type's range, and telling that needs the double's value, which is not modelled.
- HostTypes.FirstIgnoreCase: names are compared with ASCII case folding only. OrdinalIgnoreCase also folds non-ASCII letters, so a non-ASCII name can match in the source and not in the model.
- JsonSerializer.ToJson, ObjectConverter, the implicit conversion operators and the DEBUG ToString are left out. They are outside the engine's parsing and lookup.
- ServiceLocator, the scheduler, geo, inspector and expression-parser files are left out. They are outside the modelled core.
- CoreExtensions.IsIn: the tests at Iridium-Core-Test/Tests/CoreExtensionsTest.cs:16-17 and 25-26 expect a null source to be searched. The model follows the code, which throws.
- CoreExtensions.IndexIn: the same holds for the tests at CoreExtensionsTest.cs:36-37 and 45-46.
- CoreExtensions.IndexInSequence: the test at CoreExtensionsTest.cs:48 expects ArgumentNullException for a null list. The model follows the code, whose foreach throws NullReferenceException.

## Findings

| source | as written | input that shows it | evidently intended | confidence | as-written member | corrected member |
|---|---|---|---|---|---|---|
| Iridium-Core/Json/JsonTokenizer.cs:161-162 | the guard tests the keyword's first letter instead of the character just read, and the loop has no other exit | `nul]`: the scan runs on past ']' without end | stop with an exception at the first non-letter | not executed | Findings.NulNeverEnds | JsonLexerFacts.KeywordScan |
| Iridium-Core/Json/JsonTokenizer.cs:217-231 | `\n`, `\r`, `\t`, `\"` are replaced across the whole text before `\\` is | raw text `\\n` (the serializer's form of backslash-n) decodes to backslash and line feed | each escape decoded once, left to right, so that it inverts the serializer's escaping | not executed | Findings.EscapedBackslashN | Json2Facts.EscapeRoundTrip |
| Iridium-Core/Json/JsonTokenizer.cs:224-227 | the `\u` pass runs only when a lower-case `\u` occurs, though its pattern also accepts `\U` | raw text `\U00AA` is kept verbatim | decode `\U` escapes as the pattern says, whatever else the text holds | not executed | Findings.UpperUnicodeSkipped | JsonLexerFacts.UnicodeEitherCase |
