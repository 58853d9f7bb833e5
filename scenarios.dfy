/**
 * Concrete exchanges with the server, worked through the model: counting
 * the r's in "strawberry", a two-character `character`, an unknown method,
 * an unknown tool, a notification, and the end of input.
 */
module Scenarios {
  import opened Wrappers
  import opened McpModels
  import opened TextAnalysis
  import CharacterCounter
  import opened McpServer

  function StringArgument(s: string): Dynamic
  {
    Element(JsonString(s))
  }

  /** `tools/call` with id 1 and parameters that decode to `call`. */
  predicate CallRequest(request: Request, host: Host, call: ToolCallParams)
  {
    && request.methodName == ToolsCallMethod
    && request.id == Element(JsonOther("1"))
    && request.params.Element?
    && host.decodeToolCall(request.params.element) == Decoded(call)
  }

  /** "strawberry" holds three r's. */
  lemma ThreeRsInStrawberry()
    ensures Occurrences("strawberry", 'r') == 3
  {
    var text := "strawberry";
    assert Occurrences(text[..1], 'r') == 0;
    assert Occurrences(text[..2], 'r') == 0 by { assert text[..2][..1] == text[..1]; }
    assert Occurrences(text[..3], 'r') == 1 by { assert text[..3][..2] == text[..2]; }
    assert Occurrences(text[..4], 'r') == 1 by { assert text[..4][..3] == text[..3]; }
    assert Occurrences(text[..5], 'r') == 1 by { assert text[..5][..4] == text[..4]; }
    assert Occurrences(text[..6], 'r') == 1 by { assert text[..6][..5] == text[..5]; }
    assert Occurrences(text[..7], 'r') == 1 by { assert text[..7][..6] == text[..6]; }
    assert Occurrences(text[..8], 'r') == 2 by { assert text[..8][..7] == text[..7]; }
    assert Occurrences(text[..9], 'r') == 3 by { assert text[..9][..8] == text[..8]; }
    assert Occurrences(text, 'r') == 3 by { assert text[..|text| - 1] == text[..9]; }
  }

  /** Asked through `tools/call` to count 'r' in "strawberry", `count_characters` reports 3 in a successful result. */
  lemma StrawberryHasThreeRs(request: Request, host: Host)
    requires CallRequest(request, host, ToolCallParams(CharacterCounter.CountCharactersName,
               map["text" := StringArgument("strawberry"), "character" := StringArgument("r")]))
    ensures HandleRequest(request, host) == ResultResponse(Element(JsonOther("1")), ToolCalled(
              CharacterCounter.TextResult(CountPayload("strawberry", "r", 3))))
  {
    ThreeRsInStrawberry();
    OccurrencesCountsPositions("strawberry", 'r');
  }

  /** A two-character `character` is a tool-level error inside a successful response, not a protocol error. */
  lemma DoubleCharacterIsToolError(request: Request, host: Host)
    requires CallRequest(request, host, ToolCallParams(CharacterCounter.CountCharactersName,
               map["text" := StringArgument("strawberry"), "character" := StringArgument("rr")]))
    ensures var r := HandleRequest(request, host);
            && r.error == None
            && r.result == Some(ToolCalled(ToolResult([ToolContent("text", Plain(
                 "Error executing tool '" + "count_characters" + "': " + "Character must be a single character"))], true)))
  {
    var arguments := map["text" := StringArgument("strawberry"), "character" := StringArgument("rr")];
    CharacterCounter.SingleCharacterRuleIsToolError(CharacterCounter.CountCharactersName, arguments, host.toLower);
  }

  /**
   * A character beyond U+FFFF is two UTF-16 code units in C#, so it is not
   * "a single character" even though it is one Dafny `char`.
   */
  lemma CharacterBeyondBmpIsRejected(arguments: map<string, Dynamic>)
    requires arguments == map["text" := StringArgument("a\U{1F600}"), "character" := StringArgument("\U{1F600}")]
    ensures CharacterCounter.CountCharacters(arguments) == Failure(CharacterCounter.SingleCharacterMessage)
  {
    Utf16LengthOne("\U{1F600}");
  }

  /** An unknown method is a method-not-found error (-32601) naming the method. */
  lemma UnknownMethodIsNotFound(request: Request, host: Host)
    requires request.methodName == "foo/bar"
    ensures HandleRequest(request, host) == ErrorResponse(request.id, -32601, "Method not found: foo/bar")
  {
    assert "Method not found: " + request.methodName == "Method not found: foo/bar";
  }

  /** An unknown tool is a tool-level error whose message names the tool. */
  lemma UnknownToolIsToolError(request: Request, host: Host, arguments: map<string, Dynamic>)
    requires CallRequest(request, host, ToolCallParams("nope", arguments))
    ensures HandleRequest(request, host) == ResultResponse(Element(JsonOther("1")), ToolCalled(
              ToolResult([ToolContent("text", Plain(
              "Error executing tool '" + "nope" + "': " + "Unknown tool: " + "nope"))], true)))
  {
    CharacterCounter.FindListedTool("nope");
    var r := CharacterCounter.ExecuteTool("nope", arguments, host.toLower);
    assert r.isError;
    assert r.content == [ToolContent("text", r.content[0].text)];
    assert r.content[0].text == Plain(CharacterCounter.ErrorText("nope", "Unknown tool: " + "nope"));
    assert CharacterCounter.ErrorText("nope", "Unknown tool: " + "nope") == "Error executing tool '" + "nope" + "': " + "Unknown tool: " + "nope";
    assert r == ToolResult([ToolContent("text", Plain("Error executing tool '" + "nope" + "': " + "Unknown tool: " + "nope"))], true);
    assert HandleRequest(request, host) == ResultResponse(request.id, ToolCalled(r));
  }

  /**
   * A notification (a request without an id) is answered all the same: a
   * line holding, say, "notifications/initialized" gets a method-not-found
   * error with a null id, although section 4.1 of JSON-RPC 2.0 says a
   * server must not reply to a notification.
   */
  lemma NotificationIsAnswered(request: Request, host: Host)
    requires request.id == Null
    requires !KnownMethod(request.methodName)
    ensures Transcript([Decoded(request)], Dispatcher(host))
         == [ErrorResponse(Null, MethodNotFound, "Method not found: " + request.methodName)]
  {
    var lines := [Decoded(request)];
    assert lines[..0] == [];
  }

  /** A line that decodes to null writes nothing; a line that fails to decode writes an internal error with a null id. */
  lemma NullAndBrokenLines(host: Host, message: string)
    ensures Transcript([DecodedNull], Dispatcher(host)) == []
    ensures Transcript([DecodeFailed(message)], Dispatcher(host)) == [ErrorResponse(Null, -32603, "Internal server error: " + message)]
  {
    var nullLine: seq<Decoded<Request>> := [DecodedNull];
    var brokenLine: seq<Decoded<Request>> := [DecodeFailed(message)];
    assert nullLine[..0] == [];
    assert brokenLine[..0] == [];
  }

  /** At the end of input the loop stops without writing anything. */
  method EndOfInputWritesNothing(host: Host) returns (output: seq<Response>)
    ensures output == []
  {
    output := Serve([], host);
  }
}
