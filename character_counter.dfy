/**
 * The tool registry and the three character-counting tools
 * (Tools/CharacterCounter.cs). A thrown exception is a `Failure` carrying
 * its message; `ExecuteTool` turns every failure into an error-flagged
 * result. The invariant culture's `char.ToLowerInvariant` is not modelled:
 * it is passed in as `toLower`.
 */
module CharacterCounter {
  import opened Wrappers
  import opened McpModels
  import opened TextAnalysis

  const CountCharactersName := "count_characters"
  const CountIgnoreCaseName := "count_characters_ignore_case"
  const CharacterStatsName := "get_character_stats"

  const CountCharactersDescription :=
    "Count occurrences of a specific character in text (case-sensitive). Perfect for counting 'r' in 'strawberry'!"
  const CountIgnoreCaseDescription := "Count occurrences of a character in text, ignoring case differences"
  const CharacterStatsDescription := "Get detailed statistics about all characters in the text"

  /** The `type` of every content item the tools produce. */
  const TextType := "text"

  const SingleCharacterMessage := "Character must be a single character"

  /** The message of the NullReferenceException raised by `value.ToString()` on a null value. */
  const NullReferenceMessage := "Object reference " + "not set to an instance of an object."

  const TextProperty := SchemaProperty("text", "string", "The text to analyze")
  const CharacterProperty := SchemaProperty("character", "string", "The character to count (single character)")

  /** The fixed table of tool descriptors, in the order clients see them. */
  function GetTools(): (tools: seq<Tool>)
    ensures |tools| == 3
    ensures tools[0].name == CountCharactersName
    ensures tools[1].name == CountIgnoreCaseName
    ensures tools[2].name == CharacterStatsName
  {
    [ Tool(CountCharactersName,
           CountCharactersDescription,
           ObjectSchema([TextProperty, CharacterProperty], ["text", "character"])),
      Tool(CountIgnoreCaseName,
           CountIgnoreCaseDescription,
           ObjectSchema([TextProperty, CharacterProperty], ["text", "character"])),
      Tool(CharacterStatsName,
           CharacterStatsDescription,
           ObjectSchema([TextProperty], ["text"])) ]
  }

  /**
   * The table is well formed: no two descriptors share a name, and every
   * key a schema requires is one of its declared properties.
   */
  lemma ToolTableWellFormed()
    ensures var tools := GetTools();
            forall i, j :: 0 <= i < j < |tools| ==> tools[i].name != tools[j].name
    ensures forall t, key :: t in GetTools() && key in t.inputSchema.required ==>
              exists p :: p in t.inputSchema.properties && p.name == key
  {
    var tools := GetTools();
    assert |CountCharactersName| == 16 && |CountIgnoreCaseName| == 28 && |CharacterStatsName| == 19;
    forall t, key | t in tools && key in t.inputSchema.required
      ensures exists p :: p in t.inputSchema.properties && p.name == key
    {
      if key == "text" {
        assert TextProperty in t.inputSchema.properties;
      } else {
        assert CharacterProperty in t.inputSchema.properties;
      }
    }
  }

  /** The first descriptor in `tools` named `name`. */
  function FindTool(tools: seq<Tool>, name: string): (r: Option<Tool>)
    ensures r.Some? ==> r.value in tools && r.value.name == name
    ensures r.None? ==> forall t :: t in tools ==> t.name != name
  {
    if tools == [] then None
    else if tools[0].name == name then Some(tools[0])
    else FindTool(tools[1..], name)
  }

  /** An argument that is present and not null: the only ones `GetStringArgument` accepts. */
  predicate Supplies(arguments: map<string, Dynamic>, key: string)
  {
    key in arguments && !arguments[key].Null?
  }

  /**
   * Reads a string argument. A CLR string is taken as it is, a JSON string
   * element yields its content, any other element the text of its
   * `ToString()`. A null value makes `ToString()` throw, so the
   * "Invalid argument type" exception of the source is never raised.
   */
  function GetStringArgument(arguments: map<string, Dynamic>, key: string): (r: Result<string, string>)
    ensures r.Success? <==> Supplies(arguments, key)
    ensures key !in arguments ==> r == Failure("Missing required argument: " + key)
    ensures key in arguments && arguments[key].Null? ==> r == Failure(NullReferenceMessage)
    ensures r.Failure? ==> r.error != "Invalid argument type for " + key
  {
    if key !in arguments then
      var r := Failure("Missing required argument: " + key);
      assert r.error[0] == 'M';
      r
    else
      match arguments[key]
      case ClrString(s) => Success(s)
      case Element(JsonString(s)) => Success(s)
      case Element(JsonOther(rendered)) => Success(rendered)
      case Null =>
        assert NullReferenceMessage != "Invalid argument type for " + key by {
          assert NullReferenceMessage[0] == 'O';
          assert ("Invalid argument type for " + key)[0] == 'I';
        }
        Failure(NullReferenceMessage)
  }

  /** A string stored under `key`, as a CLR string or as a JSON string, reads back unchanged. */
  lemma StoredStringReadsBack(arguments: map<string, Dynamic>, key: string, s: string)
    ensures GetStringArgument(arguments[key := ClrString(s)], key) == Success(s)
    ensures GetStringArgument(arguments[key := Element(JsonString(s))], key) == Success(s)
  {
  }

  /** The string value of a supplied argument. */
  function Argument(arguments: map<string, Dynamic>, key: string): string
    requires Supplies(arguments, key)
  {
    GetStringArgument(arguments, key).value
  }

  /** A successful result with one text item holding the serialised payload. */
  function TextResult(p: Payload): ToolResult
  {
    ToolResult([ToolContent(TextType, Serialized(p))], false)
  }

  /**
   * Counts one character, case-sensitively. Fails when an argument is
   * missing or null, and when `character` is not exactly one character.
   */
  function CountCharacters(arguments: map<string, Dynamic>): (r: Result<ToolResult, string>)
    ensures r.Success? <==> Supplies(arguments, "text") && Supplies(arguments, "character")
                            && Utf16Length(Argument(arguments, "character")) == 1
    ensures r.Success? ==>
              var text := Argument(arguments, "text");
              var character := Argument(arguments, "character");
              r.value == TextResult(CountPayload(text, character, |set i | 0 <= i < |text| && text[i] == character[0]|))
    ensures !Supplies(arguments, "text") ==> r == Failure(GetStringArgument(arguments, "text").error)
    ensures Supplies(arguments, "text") && !Supplies(arguments, "character") ==>
              r == Failure(GetStringArgument(arguments, "character").error)
    ensures Supplies(arguments, "text") && Supplies(arguments, "character") && Utf16Length(Argument(arguments, "character")) != 1 ==>
              r == Failure(SingleCharacterMessage)
  {
    match GetStringArgument(arguments, "text")
    case Failure(e) => Failure(e)
    case Success(text) =>
      match GetStringArgument(arguments, "character")
      case Failure(e) => Failure(e)
      case Success(character) =>
        if Utf16Length(character) != 1 then Failure(SingleCharacterMessage)
        else
          OccurrencesCountsPositions(text, character[0]);
          Success(TextResult(CountPayload(text, character, Occurrences(text, character[0]))))
  }

  /**
   * Counts one character after lower-casing the text and the character with
   * `toLower`. Same failures as `CountCharacters`.
   */
  function CountCharactersIgnoreCase(arguments: map<string, Dynamic>, toLower: char -> char): (r: Result<ToolResult, string>)
    ensures r.Success? <==> Supplies(arguments, "text") && Supplies(arguments, "character")
                            && Utf16Length(Argument(arguments, "character")) == 1
    ensures r.Success? ==>
              var text := Argument(arguments, "text");
              var character := Argument(arguments, "character");
              r.value == TextResult(IgnoreCasePayload(text, character,
                           |set i | 0 <= i < |text| && toLower(text[i]) == toLower(character[0])|, false))
    ensures !Supplies(arguments, "text") ==> r == Failure(GetStringArgument(arguments, "text").error)
    ensures Supplies(arguments, "text") && !Supplies(arguments, "character") ==>
              r == Failure(GetStringArgument(arguments, "character").error)
    ensures Supplies(arguments, "text") && Supplies(arguments, "character") && Utf16Length(Argument(arguments, "character")) != 1 ==>
              r == Failure(SingleCharacterMessage)
  {
    match GetStringArgument(arguments, "text")
    case Failure(e) => Failure(e)
    case Success(text) =>
      match GetStringArgument(arguments, "character")
      case Failure(e) => Failure(e)
      case Success(character) =>
        if Utf16Length(character) != 1 then Failure(SingleCharacterMessage)
        else
          var lowerText := MapChars(text, toLower);
          var lowerChar := toLower(character[0]);
          FoldedOccurrencesCountsPositions(text, character[0], toLower);
          Success(TextResult(IgnoreCasePayload(text, character, Occurrences(lowerText, lowerChar), false)))
  }

  /** On the same arguments the case-insensitive count is never below the case-sensitive one. */
  lemma IgnoreCaseCountsAtLeastAsMany(arguments: map<string, Dynamic>, toLower: char -> char)
    requires CountCharacters(arguments).Success?
    ensures CountCharactersIgnoreCase(arguments, toLower).Success?
    ensures CountCharacters(arguments).value.content[0].text.payload.count
         <= CountCharactersIgnoreCase(arguments, toLower).value.content[0].text.payload.count
  {
    var text := Argument(arguments, "text");
    var c := Argument(arguments, "character")[0];
    OccurrencesCountsPositions(text, c);
    FoldedOccurrencesCountsPositions(text, c, toLower);
    FoldingOnlyAddsMatches(text, c, toLower);
  }

  /**
   * The statistics record for `text`: its length, the number of distinct
   * characters, the breakdown by rank and its first entry.
   */
  function StatsOf(text: string): Payload
  {
    var breakdown := Breakdown(text);
    StatsPayload(text, |text|, |CharSet(text)|, breakdown, if breakdown == [] then None else Some(breakdown[0]))
  }

  /**
   * What the statistics record promises: the total is the length of the
   * text; the number of unique characters is both the number of distinct
   * characters and the length of the breakdown; the breakdown gives every
   * distinct character once, with its number of occurrences, ordered by
   * count descending and character ascending, and its counts add up to the
   * total; the most frequent entry is the first one and no entry has a
   * higher count; an empty text gives zeros, an empty breakdown and no
   * most frequent entry.
   */
  lemma StatsOfMeaning(text: string)
    ensures var p := StatsOf(text);
      && p.StatsPayload? && p.text == text && p.totalCharacters == |text|
      && p.uniqueCharacters == |CharSet(text)| == |p.characterBreakdown|
      && Sum(p.characterBreakdown) == p.totalCharacters
      && Ranked(p.characterBreakdown) && DistinctCharacters(p.characterBreakdown)
      && (forall e :: e in p.characterBreakdown ==> e.count == Occurrences(text, e.character) >= 1)
      && (forall c :: c in text <==> Entry(c, Occurrences(text, c)) in p.characterBreakdown)
      && p.mostFrequent == (if p.characterBreakdown == [] then None else Some(p.characterBreakdown[0]))
      && (p.mostFrequent.Some? ==> forall e :: e in p.characterBreakdown ==> p.mostFrequent.value.count >= e.count)
      && (text == [] ==> p.uniqueCharacters == 0 && p.characterBreakdown == [] && p.mostFrequent == None)
  {
    BreakdownIsFrequencyTable(text);
  }

  /**
   * One step of the counting loop: after `text[..i]`, the dictionary update
   * for `text[i]` keeps the dictionary equal to the frequency table of the
   * text read so far, and a new key is enumerated after the old ones.
   */
  lemma CountStep(text: string, i: nat, keyOrder: seq<char>, charCounts: map<char, nat>)
    requires i < |text|
    requires keyOrder == DistinctInOrder(text[..i])
    requires charCounts == Frequencies(text[..i])
    ensures charCounts[text[i] := GetValueOrDefault(charCounts, text[i], 0) + 1]
            == Frequencies(text[..i + 1])
    ensures (if text[i] in charCounts then keyOrder else keyOrder + [text[i]]) == DistinctInOrder(text[..i + 1])
  {
    var s, c := text[..i], text[i];
    assert text[..i + 1] == s + [c];
    assert (s + [c])[..|s|] == s;
    FrequenciesStep(s, c);
  }

  /** The dictionary the loop builds, enumerated in insertion order and sorted, is the statistics record of `text`. */
  lemma CountsMatchTable(text: string, keyOrder: seq<char>, charCounts: map<char, nat>, entries: seq<Entry>, stats: Payload)
    requires keyOrder == DistinctInOrder(text)
    requires charCounts == Frequencies(text)
    requires |entries| == |keyOrder|
    requires forall j :: 0 <= j < |keyOrder| ==> keyOrder[j] in charCounts && entries[j] == Entry(keyOrder[j], charCounts[keyOrder[j]])
    requires var breakdown := SortByRank(entries);
             stats == StatsPayload(text, |text|, |charCounts|, breakdown, if breakdown == [] then None else Some(breakdown[0]))
    ensures stats == StatsOf(text)
  {
    assert entries == Entries(keyOrder, text);
    assert |charCounts| == |charCounts.Keys|;
  }

  /**
   * The loop of GetCharacterStats: fills a character-to-count dictionary
   * in place, one character at a time. `keyOrder` is the order in which the
   * dictionary enumerates its keys (insertion order).
   */
  method CountFrequencies(text: string) returns (keyOrder: seq<char>, charCounts: map<char, nat>)
    ensures keyOrder == DistinctInOrder(text)
    ensures charCounts == Frequencies(text)
  {
    charCounts := map[];
    keyOrder := [];
    for i := 0 to |text|
      invariant keyOrder == DistinctInOrder(text[..i])
      invariant charCounts == Frequencies(text[..i])
    {
      var c := text[i];
      CountStep(text, i, keyOrder, charCounts);
      if c !in charCounts {
        keyOrder := keyOrder + [c];
      }
      charCounts := charCounts[c := GetValueOrDefault(charCounts, c, 0) + 1];
    }
    assert text[..|text|] == text;
  }

  /** GetCharacterStats' computation: count, then order the dictionary's entries by rank. */
  method BuildCharacterStats(text: string) returns (stats: Payload)
    ensures stats == StatsOf(text)
  {
    var keyOrder, charCounts := CountFrequencies(text);
    var entries := seq(|keyOrder|, j requires 0 <= j < |keyOrder| => Entry(keyOrder[j], charCounts[keyOrder[j]]));
    var breakdown := SortByRank(entries);
    stats := StatsPayload(text, |text|, |charCounts|, breakdown, if breakdown == [] then None else Some(breakdown[0]));
    CountsMatchTable(text, keyOrder, charCounts, entries, stats);
  }

  /** Character statistics for the `text` argument. Fails only when `text` is missing or null. */
  function GetCharacterStats(arguments: map<string, Dynamic>): (r: Result<ToolResult, string>)
    ensures r.Success? <==> Supplies(arguments, "text")
    ensures r.Success? ==> r.value == TextResult(StatsOf(Argument(arguments, "text")))
    ensures r.Failure? ==> r == Failure(GetStringArgument(arguments, "text").error)
  {
    match GetStringArgument(arguments, "text")
    case Failure(e) => Failure(e)
    case Success(text) => Success(TextResult(StatsOf(text)))
  }

  /**
   * The arguments meet what `GetTools` advertises for the tool: every
   * required key is supplied, and a `character` argument is exactly one
   * character long.
   */
  predicate Accepts(toolName: string, arguments: map<string, Dynamic>)
  {
    match FindTool(GetTools(), toolName)
    case None => false
    case Some(tool) =>
      && (forall key :: key in tool.inputSchema.required ==> Supplies(arguments, key))
      && ("character" in tool.inputSchema.required ==> Utf16Length(Argument(arguments, "character")) == 1)
  }

  /** The diagnostic text of a failed tool call. */
  function ErrorText(toolName: string, message: string): string
  {
    "Error executing tool '" + toolName + "': " + message
  }

  /**
   * `result` is what `ExecuteTool` returns for a tool run that ended with
   * `outcome`: the tool's own result, or the caught exception's message as
   * an error-flagged text item.
   */
  predicate Reports(result: ToolResult, toolName: string, outcome: Result<ToolResult, string>)
  {
    match outcome
    case Success(value) => result == value
    case Failure(message) => result == ToolResult([ToolContent(TextType, Plain(ErrorText(toolName, message)))], true)
  }

  /** The tool name and the message can both be read back from an error text. */
  lemma ErrorTextNamesToolAndMessage(toolName: string, message: string, otherMessage: string)
    ensures var r := ErrorText(toolName, message);
            && |r| == 25 + |toolName| + |message|
            && r[22..22 + |toolName|] == toolName
            && r[|r| - |message|..] == message
    ensures ErrorText(toolName, message) == ErrorText(toolName, otherMessage) ==> message == otherMessage
  {
    var r := ErrorText(toolName, message);
    if ErrorText(toolName, message) == ErrorText(toolName, otherMessage) {
      assert message == r[|r| - |message|..];
    }
  }

  lemma FindListedTool(name: string)
    ensures FindTool(GetTools(), name) ==
              if name == CountCharactersName then Some(GetTools()[0])
              else if name == CountIgnoreCaseName then Some(GetTools()[1])
              else if name == CharacterStatsName then Some(GetTools()[2])
              else None
  {
    var tools := GetTools();
    assert tools[1..][1..] == [tools[2]];
  }

  /**
   * What the schemas demand, tool by tool: both counting tools need `text`
   * and a one-character `character`, the statistics tool needs `text`, and
   * no other name is accepted.
   */
  lemma AcceptsByName(toolName: string, arguments: map<string, Dynamic>)
    ensures Accepts(toolName, arguments) <==>
              if toolName == CountCharactersName || toolName == CountIgnoreCaseName then
                Supplies(arguments, "text") && Supplies(arguments, "character") && Utf16Length(Argument(arguments, "character")) == 1
              else
                toolName == CharacterStatsName && Supplies(arguments, "text")
  {
    FindListedTool(toolName);
    assert "character" != "text";
  }

  /**
   * Runs the tool named `toolName`. Every outcome is one content item of
   * type "text"; the result is flagged as an error exactly when the tool is
   * not listed by `GetTools` or the arguments do not meet its schema.
   */
  function ExecuteTool(toolName: string, arguments: map<string, Dynamic>, toLower: char -> char): (r: ToolResult)
    ensures |r.content| == 1 && r.content[0].contentType == TextType
    ensures r.isError <==> !Accepts(toolName, arguments)
    ensures r.isError ==> r.content[0].text.Plain?
    ensures !r.isError ==> r.content[0].text.Serialized?
    ensures FindTool(GetTools(), toolName).None? ==>
              r.content[0].text == Plain(ErrorText(toolName, "Unknown tool: " + toolName))
    ensures toolName == CountCharactersName ==> Reports(r, toolName, CountCharacters(arguments))
    ensures toolName == CountIgnoreCaseName ==> Reports(r, toolName, CountCharactersIgnoreCase(arguments, toLower))
    ensures toolName == CharacterStatsName ==> Reports(r, toolName, GetCharacterStats(arguments))
  {
    FindListedTool(toolName);
    AcceptsByName(toolName, arguments);
    var outcome :=
      if toolName == CountCharactersName then CountCharacters(arguments)
      else if toolName == CountIgnoreCaseName then CountCharactersIgnoreCase(arguments, toLower)
      else if toolName == CharacterStatsName then GetCharacterStats(arguments)
      else Failure("Unknown tool: " + toolName);
    match outcome
    case Success(result) => result
    case Failure(message) => ToolResult([ToolContent(TextType, Plain(ErrorText(toolName, message)))], true)
  }

  /** Through `ExecuteTool`, a `character` that is not one character long is a tool-level error. */
  lemma SingleCharacterRuleIsToolError(toolName: string, arguments: map<string, Dynamic>, toLower: char -> char)
    requires toolName == CountCharactersName || toolName == CountIgnoreCaseName
    requires Supplies(arguments, "text") && Supplies(arguments, "character")
    requires Utf16Length(Argument(arguments, "character")) != 1
    ensures ExecuteTool(toolName, arguments, toLower).isError
    ensures ExecuteTool(toolName, arguments, toLower).content[0].text == Plain(ErrorText(toolName, SingleCharacterMessage))
  {
  }
}
