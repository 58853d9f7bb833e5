# Character-counter MCP server, modelled in Dafny

The system is a small Model Context Protocol server. It reads JSON-RPC 2.0
requests one per line and answers `initialize`, `tools/list` and
`tools/call`. It offers three text-analysis tools:

- `count_characters` counts one character, case-sensitively.
- `count_characters_ignore_case` counts one character after lower-casing both sides.
- `get_character_stats` builds a frequency table of every character, ordered by
  count descending and then by character ascending.

The model covers the tool registry and the tools themselves (`Tools/CharacterCounter.cs`).
It also covers the request dispatcher and the per-line policy of the
transport loop (`McpServer.cs`).

Files, one module each:

- `wrappers.dfy`: `Option` and `Result`.
- `mcp_models.dfy`: the records of `Models/McpModels.cs`. Untyped `object?`
  members are a small union `Dynamic`: a null, a CLR string, or a JSON element.
  The text of a tool's content item is `ContentText`: either a serialised
  `Payload` (the anonymous result object of a tool) or a plain message.
- `text_analysis.dfy`: specification functions on strings. These are the
  occurrence count, case folding, distinct characters in first-seen order, and
  the frequency table with its ranking sort. Lemmas prove what they mean.
- `character_counter.dfy`: the tools. A thrown exception becomes a `Failure`
  carrying its message. `ExecuteTool` turns every failure into an error-flagged
  result. The counting loop of `GetCharacterStats` is the imperative method
  `BuildCharacterStats`, which updates a map in place. It is proved equal to the
  specification `StatsOf`.
- `mcp_server.dfy`: the handlers, the dispatcher and the transport loop
  `Serve`. Input lines arrive as decode outcomes: a request, a null, or a
  failure with its message. `Serve` is proved equal to `Transcript`, the
  line-by-line specification.
- `scenarios.dfy`: worked exchanges. Examples are the r's in "strawberry", a
  two-character `character`, an unknown method or tool, a notification, and
  the end of input.

Code outside the model is passed in as parameters, bundled in `McpServer.Host`:

- `toLower` stands for `char.ToLowerInvariant`.
- `decodeToolCall` stands for deserialising a parameters element into
  `ToolCallParams`.

A JSON element that is not a string carries the text its `ToString()` yields.

The model follows the code where it departs from JSON-RPC 2.0 or from its
own evident intent:

- A line that fails to decode gets -32603 (internal error) with a null id.
  Section 5.1 of JSON-RPC 2.0 assigns -32700 (parse error) to invalid JSON.
- A line that decodes to JSON `null` writes nothing.
- An argument whose value is JSON `null` makes `value.ToString()` throw
  (`Tools/CharacterCounter.cs:237`). The caller then sees the runtime's
  null-reference message. So the "Invalid argument type for {key}" branch
  at `Tools/CharacterCounter.cs:239` is never reached (`GetStringArgument`
  proves it).
- Notifications (requests without an id) are answered like any other
  request. Section 4.1 of JSON-RPC 2.0 says a server must not reply to one.
  For example, `notifications/initialized` gets a method-not-found error
  with a null id.

A Dafny `char` is a Unicode scalar value, while a C# `char` is a UTF-16
code unit. `TextAnalysis.Utf16Length` is C#'s `string.Length`, and the
single-character check uses it, so a `character` beyond U+FFFF is rejected
as in the source. A text's characters beyond U+FFFF are one model
character each, where the source sees two surrogate halves. This does not
change the two counting tools: the one character they count is below
U+10000 and never equals a surrogate half. It does change the statistics
(see "## Left out").

## Model

| member | source | states |
|---|---|---|
| CharacterCounter.GetTools | Tools/CharacterCounter.cs:14-83 | three descriptors named count_characters, count_characters_ignore_case, get_character_stats in that order |
| CharacterCounter.ToolTableWellFormed | Tools/CharacterCounter.cs:14-83 | no two descriptors share a name, and every key a schema requires is one of its declared properties |
| CharacterCounter.FindTool | Tools/CharacterCounter.cs:92-97 | a found descriptor is in the table and has the name; none found means no descriptor has that name |
| CharacterCounter.FindListedTool | Tools/CharacterCounter.cs:92-97 | the switch on the tool name selects the first, second or third descriptor for the three listed names and nothing for any other |
| CharacterCounter.GetStringArgument | Tools/CharacterCounter.cs:228-241 | succeeds exactly when the key is present with a non-null value; a missing key fails with "Missing required argument: {key}"; a null value fails with the null-reference message; "Invalid argument type for {key}" is never the failure |
| CharacterCounter.StoredStringReadsBack | Tools/CharacterCounter.cs:235-238 | a CLR string or a JSON string element under the key reads back unchanged |
| CharacterCounter.CountCharacters | Tools/CharacterCounter.cs:117-149 | succeeds iff both arguments are supplied and `character` has length 1; the count is the number of indices i with text[i] == character[0]; each failure carries the first failing argument's message or "Character must be a single character" |
| CharacterCounter.CountCharactersIgnoreCase | Tools/CharacterCounter.cs:151-186 | same failures as CountCharacters; the count is the number of indices i with lower(text[i]) == lower(character[0]); caseSensitive is false |
| CharacterCounter.IgnoreCaseCountsAtLeastAsMany | Tools/CharacterCounter.cs:117-186 | on the same arguments the case-insensitive tool succeeds too and never counts fewer than the case-sensitive one |
| CharacterCounter.StatsOfMeaning | Tools/CharacterCounter.cs:198-211 | about the statistics object StatsOf(text): totalCharacters is the length in characters; uniqueCharacters equals the number of distinct characters and the breakdown length; breakdown counts sum to the length; every distinct character appears once with its occurrence count (at least 1); ordered by count descending then character ascending; mostFrequent is the first entry and has the largest count; empty text gives 0, 0, empty breakdown, no mostFrequent |
| CharacterCounter.CountStep | Tools/CharacterCounter.cs:193-196 | after reading text[..i], the update `charCounts[c] = charCounts.GetValueOrDefault(c, 0) + 1` for c = text[i] yields the frequency table of text[..i+1], and a new key is enumerated after the old ones |
| CharacterCounter.CountFrequencies | Tools/CharacterCounter.cs:192-196 | the loop leaves the dictionary equal to the frequency table of the text (every character mapped to its number of occurrences), with keys enumerated in order of first appearance |
| CharacterCounter.CountsMatchTable | Tools/CharacterCounter.cs:198-210 | the entries of the finished dictionary, enumerated in insertion order and sorted, give exactly the statistics record StatsOf(text) |
| CharacterCounter.BuildCharacterStats | Tools/CharacterCounter.cs:190-212 | counting, then ordering the dictionary's entries by rank, produces StatsOf(text) |
| CharacterCounter.GetCharacterStats | Tools/CharacterCounter.cs:188-226 | succeeds iff `text` is supplied, then with the statistics of that text; otherwise fails with the argument's message |
| CharacterCounter.AcceptsByName | Tools/CharacterCounter.cs:14-97 | the schemas demand, per tool: both counting tools need `text` and a one-character `character`, the statistics tool needs `text`, and no other name is accepted |
| CharacterCounter.ErrorTextNamesToolAndMessage | Tools/CharacterCounter.cs:109 | the error text is "Error executing tool '" then the tool name then "': " then the message; the tool name and the message can be read back from it |
| CharacterCounter.ExecuteTool | Tools/CharacterCounter.cs:88-115 | always exactly one content item of type "text"; isError iff the name is not listed or the arguments miss a required key or give a `character` whose UTF-16 length is not 1; each listed name runs its own tool: count_characters gives CountCharacters' result, count_characters_ignore_case CountCharactersIgnoreCase's, get_character_stats GetCharacterStats'; a tool's failure becomes "Error executing tool '{name}': {message}" with isError set; an unknown name gives "Error executing tool '{name}': Unknown tool: {name}" |
| CharacterCounter.SingleCharacterRuleIsToolError | Tools/CharacterCounter.cs:100-159 | through ExecuteTool, a `character` not exactly one long yields isError with "Error executing tool '{name}': Character must be a single character" |
| TextAnalysis.OccurrencesCountsPositions | Tools/CharacterCounter.cs:127 | the occurrence count is the number of indices holding the character |
| TextAnalysis.OccurrencesPositive | Tools/CharacterCounter.cs:195 | a character occurs at least once iff it is in the text |
| TextAnalysis.Utf16Length | Tools/CharacterCounter.cs:122 | C#'s `Length`: at least one and at most two code units per character |
| TextAnalysis.Utf16LengthOne | Tools/CharacterCounter.cs:122 | `Length == 1` holds exactly for one character below U+10000 |
| TextAnalysis.MapChars | Tools/CharacterCounter.cs:161 | lower-casing a string keeps its length and maps every position |
| TextAnalysis.FoldedOccurrencesCountsPositions | Tools/CharacterCounter.cs:161-163 | counting the folded character in the folded text counts the indices whose folded character matches |
| TextAnalysis.FoldingOnlyAddsMatches | Tools/CharacterCounter.cs:161-163 | folding both sides never loses a match |
| TextAnalysis.FoldedCountIgnoresCaseSwap | Tools/CharacterCounter.cs:161-163 | the folded count is unchanged when text and character are re-cased by any mapping that folding ignores |
| TextAnalysis.DistinctInOrder | Tools/CharacterCounter.cs:192-196 | the dictionary's key order: no duplicates, exactly the characters of the text |
| TextAnalysis.Frequencies | Tools/CharacterCounter.cs:192-196 | the frequency table's keys are exactly the characters of the text |
| TextAnalysis.FrequenciesStep | Tools/CharacterCounter.cs:195 | reading one more character raises its count by one, adding it with count 1 when it is new, and changes no other count |
| TextAnalysis.DistinctCount | Tools/CharacterCounter.cs:208 | the number of keys equals the number of distinct characters |
| TextAnalysis.Entries | Tools/CharacterCounter.cs:201 | one entry per key, holding the key and its occurrence count |
| TextAnalysis.SumAppend | Tools/CharacterCounter.cs:198-202 | the total of joined breakdowns is the sum of their totals |
| TextAnalysis.Insert | Tools/CharacterCounter.cs:198-200 | inserting an entry adds exactly that entry and its count |
| TextAnalysis.SortByRank | Tools/CharacterCounter.cs:198-200 | sorting is a permutation and keeps the total |
| TextAnalysis.RankIsTotal | Tools/CharacterCounter.cs:199-200 | of two entries with different characters one outranks the other, so the order of OrderByDescending(count).ThenBy(character) is unique |
| TextAnalysis.InsertKeepsRanked | Tools/CharacterCounter.cs:198-200 | inserting into a ranked breakdown of distinct characters keeps it ranked |
| TextAnalysis.SortByRankIsRanked | Tools/CharacterCounter.cs:198-200 | sorting entries with distinct characters yields count descending, character ascending |
| TextAnalysis.EntriesSumStep | Tools/CharacterCounter.cs:193-196 | reading one more character adds one to the total of the entries that include it |
| TextAnalysis.EntriesSumToLength | Tools/CharacterCounter.cs:207-209 | the counts of the frequency table add up to the text length |
| TextAnalysis.BreakdownHoldsEntries | Tools/CharacterCounter.cs:198-202 | the sorted breakdown holds exactly the dictionary's entries |
| TextAnalysis.BreakdownCounts | Tools/CharacterCounter.cs:195-201 | every breakdown count is the character's occurrence count, at least 1; a character is in the text iff its entry is in the breakdown |
| TextAnalysis.BreakdownRanked | Tools/CharacterCounter.cs:198-210 | the breakdown is ranked, has distinct characters, and its first entry has the largest count |
| TextAnalysis.BreakdownIsFrequencyTable | Tools/CharacterCounter.cs:192-210 | all of the above about the breakdown, plus its length is the number of distinct characters and its total the text length |
| McpServer.HandleInitialize | McpServer.cs:96-119 | echoes the id, no error, protocolVersion "2024-11-05", a tools capability, server "character-counter-mcp" version "1.0.0" |
| McpServer.HandleToolsList | McpServer.cs:121-133 | echoes the id, no error, result is exactly GetTools() |
| McpServer.HandleToolCall | McpServer.cs:135-177 | echoes the id, exactly one of result and error; params that are not an element give -32602 "Invalid parameters"; a null decode gives -32602 "Failed to deserialize tool call parameters"; a failed decode gives -32602 with its message; otherwise the result is ExecuteTool's, even when it is error-flagged |
| McpServer.HandleRequest | McpServer.cs:76-94 | "initialize" is answered by HandleInitialize, "tools/list" by HandleToolsList, "tools/call" by HandleToolCall; every response echoes the request id and has exactly one of result and error; error codes are only -32601 or -32602; -32601 iff the method is not one of the three; its message is "Method not found: {method}" |
| McpServer.Reply | McpServer.cs:45-71 | at most one line per input line; none exactly for a line decoding to null; the handler's response for a decoded request; for a failed decode a "2.0" response with a null id, no result and error -32603 "Internal server error: {message}" |
| McpServer.Serve | McpServer.cs:36-73 | the loop stops at end of input and writes exactly Transcript(input, Dispatcher(host)): one dispatcher response per decoded request, nothing for a null, an internal error for a failed decode |
| McpServer.TranscriptAppend | McpServer.cs:36-73 | lines are answered independently: the output of joined inputs is the joined outputs |
| McpServer.TranscriptWellFormed | McpServer.cs:51-71 | when the handler answers well-formed, every line written is a "2.0" response with exactly one of result and error |
| McpServer.TranscriptLength | McpServer.cs:45-55 | one line is written per input line except those decoding to null |
| McpServer.InternalErrorsOnlyForUndecodableLines | McpServer.cs:57-71 | when the handler never reports -32603, every -32603 written is the internal-error reply to an input line that failed to decode, carrying that line's message |
| McpServer.DispatcherAnswers | McpServer.cs:76-94 | every dispatcher response is well-formed and none carries -32603 |
| McpServer.ServedLinesWellFormed | McpServer.cs:36-73 | every line the server writes is a "2.0" response with exactly one of result and error |
| McpServer.ServedInternalErrors | McpServer.cs:45-71 | every -32603 the server writes is the internal-error reply to an input line that failed to decode, carrying that line's message |
| McpServer.ServedLinesHaveNoInternalError | McpServer.cs:45-71 | when no line failed to decode, no line written carries -32603 |
| Scenarios.ThreeRsInStrawberry | Tools/CharacterCounter.cs:127 | "strawberry" holds three r's |
| Scenarios.StrawberryHasThreeRs | Tools/CharacterCounter.cs:117-149 | counting 'r' in "strawberry" through tools/call answers a success with count 3 |
| Scenarios.DoubleCharacterIsToolError | Tools/CharacterCounter.cs:122-125 | character "rr" is a tool-level error inside a successful response, not a protocol error |
| Scenarios.CharacterBeyondBmpIsRejected | Tools/CharacterCounter.cs:122-125 | a `character` holding U+1F600 (two UTF-16 code units) fails with "Character must be a single character" |
| Scenarios.UnknownMethodIsNotFound | McpServer.cs:83-91 | method "foo/bar" gets -32601 "Method not found: foo/bar" with the request's id |
| Scenarios.UnknownToolIsToolError | Tools/CharacterCounter.cs:97-113 | tool "nope" gets a successful response with an error-flagged result "Error executing tool 'nope': Unknown tool: nope" |
| Scenarios.NotificationIsAnswered | McpServer.cs:46-91 | a request without an id (a notification such as notifications/initialized) for an unknown method is answered: one line with -32601, "Method not found: {method}" and a null id |
| Scenarios.NullAndBrokenLines | McpServer.cs:45-71 | a line decoding to null writes nothing; a failed decode writes -32603 "Internal server error: {message}" with a null id |
| Scenarios.EndOfInputWritesNothing | McpServer.cs:38-39 | with no input the loop ends at once and writes nothing |

## Left out

- Console streams, `async`/`Task`, auto-flush and all logging to standard error. These are I/O plumbing. `Serve` takes the input as a sequence of decode outcomes and returns the output as a sequence of response records.
- JSON serialisation and deserialisation with camel-case options. Decoding is an abstract outcome: a request, a null, or a failure with a message. Serialised text is not modelled; the records are.
  - The serialiser also writes the unset one of `result` and `error` as JSON `null`, and writes `data: null`. "Exactly one" is proved about the records only.
- `HandleToolCall` re-parses the raw parameter text. This is the `decodeToolCall` parameter; what it does with a wrong-shaped object is not modelled.
- `char.ToLowerInvariant` and its Unicode tables. This is the `toLower` parameter. `string.ToLowerInvariant` is that mapping applied to each character.
- `value.ToString()` of a non-string JSON element is not computed. The element carries that text (`JsonOther.rendered`).
- The `analysis` sentences of the three tool payloads. They hold integer-to-text formatting only.
- The breakdown's `character` field is a one-character string in the source. It is a `char` here.
- CharacterCounter.StatsOf: for a text with characters beyond U+FFFF, `totalCharacters` counts characters, not UTF-16 code units, and the breakdown has one entry per such character where the source has one per surrogate half. A Dafny `char` cannot hold a surrogate half. For text below U+10000 the two agree.
- A C# string holding a lone surrogate half has no Dafny counterpart.
- Input schemas are reduced to property names, JSON types, descriptions and the `required` list. The surrounding `type = "object"` is implied by `ObjectSchema`.
- A null `Method` in a request, or a null `Name` or `Arguments` in tool-call parameters. The model's records always hold a string and a map.
  - In the source, null `Arguments` would make every listed tool fail with the null-reference message.
- Integer width: counts are unbounded naturals. A `string` longer than 2^31 - 1 characters cannot exist in the source.
