/**
 * The request dispatcher and the per-line policy of the transport loop
 * (McpServer.cs). Streams, logging and the JSON serialiser are not
 * modelled: each input line arrives already decoded (or not), and each
 * output line is the response record that would be serialised onto it.
 */
module McpServer {
  import opened Wrappers
  import opened McpModels
  import CharacterCounter

  /**
   * What the server takes from code outside the model: the invariant
   * culture's lower-case mapping, and the decoding of a `tools/call`
   * parameters element into ToolCallParams.
   */
  datatype Host = Host(toLower: char -> char, decodeToolCall: JsonElement -> Decoded<ToolCallParams>)

  const JsonRpcVersion := "2.0"
  const ProtocolVersion := "2024-11-05"
  const ServerName := "character-counter-mcp"
  const ServerVersion := "1.0.0"

  /** Error codes of section 5.1 of the JSON-RPC 2.0 specification. */
  const MethodNotFound := -32601
  const InvalidParams := -32602
  const InternalError := -32603

  const InitializeMethod := "initialize"
  const ToolsListMethod := "tools/list"
  const ToolsCallMethod := "tools/call"

  /** The three methods the server implements. */
  predicate KnownMethod(name: string)
  {
    name == InitializeMethod || name == ToolsListMethod || name == ToolsCallMethod
  }

  /** A response carries a result or an error, never both and never neither. */
  predicate ExactlyOne(r: Response)
  {
    r.result.Some? != r.error.Some?
  }

  /** `r` is a well-formed JSON-RPC 2.0 answer to `request`: same id, exactly one of result and error. */
  predicate Answers(request: Request, r: Response)
  {
    r.jsonrpc == JsonRpcVersion && r.id == request.id && ExactlyOne(r)
  }

  function ResultResponse(id: Dynamic, value: ResultValue): Response
  {
    Response(JsonRpcVersion, id, Some(value), None)
  }

  function ErrorResponse(id: Dynamic, code: int, message: string): Response
  {
    Response(JsonRpcVersion, id, None, Some(RpcError(code, message, Null)))
  }

  /** The handshake: protocol version, a tools capability and the server's identity. */
  function HandleInitialize(request: Request): (r: Response)
    ensures Answers(request, r)
    ensures r.result == Some(Initialized(InitializeResult(
              "2024-11-05", ServerCapabilities(Some(EmptyObject)), Implementation("character-counter-mcp", "1.0.0"))))
  {
    ResultResponse(request.id, Initialized(InitializeResult(
      ProtocolVersion, ServerCapabilities(Some(EmptyObject)), Implementation(ServerName, ServerVersion))))
  }

  /** Tool discovery: the registry's descriptors, unchanged and in order. */
  function HandleToolsList(request: Request): (r: Response)
    ensures Answers(request, r)
    ensures r.result == Some(ToolsListed(CharacterCounter.GetTools()))
  {
    ResultResponse(request.id, ToolsListed(CharacterCounter.GetTools()))
  }

  /**
   * Tool invocation. Parameters that are not a JSON element, that decode
   * to null, or that fail to decode are an invalid-params error; otherwise
   * whatever `ExecuteTool` returns, error-flagged or not, is the result.
   */
  function HandleToolCall(request: Request, host: Host): (r: Response)
    ensures Answers(request, r)
    ensures r.error.Some? ==> r.error.value.code == InvalidParams
    ensures !request.params.Element? ==> r.error == Some(RpcError(InvalidParams, "Invalid parameters", Null))
    ensures request.params.Element? ==>
              match host.decodeToolCall(request.params.element)
              case DecodedNull => r.error == Some(RpcError(InvalidParams, "Failed to deserialize tool call parameters", Null))
              case DecodeFailed(message) => r.error == Some(RpcError(InvalidParams, message, Null))
              case Decoded(call) =>
                r.result == Some(ToolCalled(CharacterCounter.ExecuteTool(call.name, call.arguments, host.toLower)))
  {
    if !request.params.Element? then
      ErrorResponse(request.id, InvalidParams, "Invalid parameters")
    else
      match host.decodeToolCall(request.params.element)
      case DecodedNull => ErrorResponse(request.id, InvalidParams, "Failed to deserialize tool call parameters")
      case DecodeFailed(message) => ErrorResponse(request.id, InvalidParams, message)
      case Decoded(call) =>
        ResultResponse(request.id, ToolCalled(CharacterCounter.ExecuteTool(call.name, call.arguments, host.toLower)))
  }

  /**
   * Routes a request by its method name. Every response answers the
   * request (same id, exactly one of result and error); the dispatcher
   * itself never reports an internal error; an unknown method is a
   * method-not-found error that names it.
   */
  function HandleRequest(request: Request, host: Host): (r: Response)
    ensures Answers(request, r)
    ensures r.error.Some? ==> r.error.value.code == MethodNotFound || r.error.value.code == InvalidParams
    ensures r.error.Some? && r.error.value.code == MethodNotFound <==>
              !KnownMethod(request.methodName)
    ensures !KnownMethod(request.methodName) ==>
              r.error == Some(RpcError(MethodNotFound, "Method not found: " + request.methodName, Null))
    ensures request.methodName == InitializeMethod ==> r == HandleInitialize(request)
    ensures request.methodName == ToolsListMethod ==> r == HandleToolsList(request)
    ensures request.methodName == ToolsCallMethod ==> r == HandleToolCall(request, host)
  {
    if request.methodName == InitializeMethod then HandleInitialize(request)
    else if request.methodName == ToolsListMethod then HandleToolsList(request)
    else if request.methodName == ToolsCallMethod then HandleToolCall(request, host)
    else ErrorResponse(request.id, MethodNotFound, "Method not found: " + request.methodName)
  }

  /** The response written for a line that could not be decoded: an internal error with a null id. */
  function InternalErrorResponse(message: string): Response
  {
    ErrorResponse(Null, InternalError, "Internal server error: " + message)
  }

  /** The dispatcher with the host fixed: what the loop applies to every decoded request. */
  function Dispatcher(host: Host): Request -> Response
  {
    request => HandleRequest(request, host)
  }

  /**
   * What one input line produces on the output, given the handler of
   * decoded requests: nothing when the line decodes to null, the handler's
   * response for a request, an internal error when decoding failed.
   */
  function Reply(line: Decoded<Request>, handle: Request -> Response): (out: seq<Response>)
    ensures |out| <= 1
    ensures out == [] <==> line.DecodedNull?
    ensures line.Decoded? ==> out == [handle(line.value)]
    ensures line.DecodeFailed? ==>
              && out[0].jsonrpc == JsonRpcVersion && out[0].id == Null && out[0].result == None
              && out[0].error == Some(RpcError(InternalError, "Internal server error: " + line.message, Null))
  {
    match line
    case Decoded(request) => [handle(request)]
    case DecodedNull => []
    case DecodeFailed(message) => [InternalErrorResponse(message)]
  }

  /** Everything written for a sequence of input lines, line by line. */
  function Transcript(lines: seq<Decoded<Request>>, handle: Request -> Response): seq<Response>
  {
    if lines == [] then [] else Reply(lines[0], handle) + Transcript(lines[1..], handle)
  }

  /** `ReadLine`: the next line, or null once the input is exhausted. */
  function ReadLine(input: seq<Decoded<Request>>, position: nat): Option<Decoded<Request>>
  {
    if position < |input| then Some(input[position]) else None
  }

  /**
   * The transport loop: read a line, stop at end of input, otherwise
   * answer it by the per-line policy and go on.
   */
  method Serve(input: seq<Decoded<Request>>, host: Host) returns (output: seq<Response>)
    ensures output == Transcript(input, Dispatcher(host))
  {
    output := [];
    var position := 0;
    while true
      invariant position <= |input|
      invariant output == Transcript(input[..position], Dispatcher(host))
      decreases |input| - position
    {
      var line := ReadLine(input, position);
      if line.None? {
        break;
      }
      PrefixSnoc(input, position);
      TranscriptAppend(input[..position], [line.value], Dispatcher(host));
      assert [line.value][1..] == [];
      position := position + 1;
      match line.value
      case Decoded(request) =>
        var response := HandleRequest(request, host);
        output := output + [response];
      case DecodedNull =>
      case DecodeFailed(message) =>
        output := output + [InternalErrorResponse(message)];
    }
    assert input[..position] == input;
  }

  /** Taking the head off a joined sequence takes it off the first part. */
  lemma TailOfAppend<T>(a: seq<T>, b: seq<T>)
    requires a != []
    ensures (a + b)[0] == a[0]
    ensures (a + b)[1..] == a[1..] + b
  {
  }

  /** The first `i + 1` elements are the first `i` followed by element `i`. */
  lemma PrefixSnoc<T>(s: seq<T>, i: nat)
    requires i < |s|
    ensures s[..i + 1] == s[..i] + [s[i]]
  {
  }

  /** Lines are answered independently: the output for two stretches of input is the two outputs joined. */
  lemma {:induction false} TranscriptAppend(a: seq<Decoded<Request>>, b: seq<Decoded<Request>>, handle: Request -> Response)
    ensures Transcript(a + b, handle) == Transcript(a, handle) + Transcript(b, handle)
  {
    if a == [] {
      assert a + b == b;
    } else {
      TailOfAppend(a, b);
      TranscriptAppend(a[1..], b, handle);
    }
  }

  /** A JSON-RPC 2.0 response with exactly one of result and error. */
  predicate WellFormed(r: Response)
  {
    r.jsonrpc == JsonRpcVersion && ExactlyOne(r)
  }

  /** When the handler answers well-formed, every line written is well-formed. */
  lemma {:induction false} TranscriptWellFormed(lines: seq<Decoded<Request>>, handle: Request -> Response)
    requires forall request :: WellFormed(handle(request))
    ensures forall r :: r in Transcript(lines, handle) ==> WellFormed(r)
  {
    if lines != [] {
      TranscriptWellFormed(lines[1..], handle);
    }
  }

  /** The indices of the lines that decode to null. */
  function NullLines(lines: seq<Decoded<Request>>): set<int>
  {
    set i | 0 <= i < |lines| && lines[i].DecodedNull?
  }

  /** Adding one line adds its index to the null lines exactly when it decodes to null. */
  lemma NullLinesStep(lines: seq<Decoded<Request>>)
    requires lines != []
    ensures |NullLines(lines)| == |NullLines(lines[..|lines| - 1])| + (if lines[|lines| - 1].DecodedNull? then 1 else 0)
  {
    var n := |lines| - 1;
    if lines[n].DecodedNull? {
      assert NullLines(lines) == NullLines(lines[..n]) + {n};
    } else {
      assert NullLines(lines) == NullLines(lines[..n]);
    }
  }

  /** One line is written for every input line except those that decode to null. */
  lemma {:induction false} TranscriptLength(lines: seq<Decoded<Request>>, handle: Request -> Response)
    ensures |Transcript(lines, handle)| + |NullLines(lines)| == |lines|
  {
    if lines != [] {
      var n := |lines| - 1;
      TranscriptLength(lines[..n], handle);
      NullLinesStep(lines);
      PrefixSnoc(lines, n);
      assert lines[..n + 1] == lines;
      TranscriptAppend(lines[..n], [lines[n]], handle);
      assert [lines[n]][1..] == [];
    }
  }

  /**
   * When the handler never reports an internal error, every internal error
   * (code -32603) written is the reply to a line that failed to decode,
   * and carries that line's message.
   */
  lemma {:induction false} InternalErrorsOnlyForUndecodableLines(lines: seq<Decoded<Request>>, handle: Request -> Response)
    requires forall request :: handle(request).error.Some? ==> handle(request).error.value.code != InternalError
    ensures forall r :: r in Transcript(lines, handle) && r.error.Some? && r.error.value.code == InternalError ==>
              exists message :: DecodeFailed(message) in lines && r == InternalErrorResponse(message)
  {
    if lines != [] {
      InternalErrorsOnlyForUndecodableLines(lines[1..], handle);
      forall r | r in Transcript(lines, handle) && r.error.Some? && r.error.value.code == InternalError
        ensures exists message :: DecodeFailed(message) in lines && r == InternalErrorResponse(message)
      {
        if r in Reply(lines[0], handle) {
          assert lines[0].DecodeFailed? && r == InternalErrorResponse(lines[0].message);
          assert DecodeFailed(lines[0].message) == lines[0];
        } else {
          var message :| DecodeFailed(message) in lines[1..] && r == InternalErrorResponse(message);
          assert DecodeFailed(message) in lines;
        }
      }
    }
  }

  /** Every response of the dispatcher is well-formed and none is an internal error. */
  lemma DispatcherAnswers(host: Host)
    ensures forall request :: WellFormed(Dispatcher(host)(request))
    ensures forall request :: Dispatcher(host)(request).error.Some? ==> Dispatcher(host)(request).error.value.code != InternalError
  {
    forall request
      ensures WellFormed(Dispatcher(host)(request))
      ensures Dispatcher(host)(request).error.Some? ==> Dispatcher(host)(request).error.value.code != InternalError
    {
      assert Dispatcher(host)(request) == HandleRequest(request, host);
    }
  }

  /** Every line the server writes is a well-formed JSON-RPC 2.0 response. */
  lemma ServedLinesWellFormed(lines: seq<Decoded<Request>>, host: Host)
    ensures forall r :: r in Transcript(lines, Dispatcher(host)) ==> WellFormed(r)
  {
    DispatcherAnswers(host);
    TranscriptWellFormed(lines, Dispatcher(host));
  }

  /** Every internal error the server writes answers a line that failed to decode, and carries its message. */
  lemma ServedInternalErrors(lines: seq<Decoded<Request>>, host: Host)
    ensures forall r :: r in Transcript(lines, Dispatcher(host)) && r.error.Some? && r.error.value.code == InternalError ==>
              exists message :: DecodeFailed(message) in lines && r == InternalErrorResponse(message)
  {
    DispatcherAnswers(host);
    InternalErrorsOnlyForUndecodableLines(lines, Dispatcher(host));
  }

  /** When no line failed to decode, the server writes no internal error. */
  lemma ServedLinesHaveNoInternalError(lines: seq<Decoded<Request>>, host: Host)
    requires forall i :: 0 <= i < |lines| ==> !lines[i].DecodeFailed?
    ensures forall r :: r in Transcript(lines, Dispatcher(host)) && r.error.Some? ==> r.error.value.code != InternalError
  {
    ServedInternalErrors(lines, host);
  }
}
