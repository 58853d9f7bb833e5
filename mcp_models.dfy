/**
 * The records exchanged by the server (Models/McpModels.cs) and the
 * anonymous result objects that the character-counting tools serialise.
 */
module McpModels {
  import opened Wrappers

  /**
   * A `System.Text.Json.JsonElement` as it reaches an `object`-typed member.
   * Only string elements are inspected by the server; for every other kind
   * (number, boolean, array, object) the model keeps the text that the
   * element's `ToString()` yields.
   */
  datatype JsonElement =
    | JsonString(content: string)
    | JsonOther(rendered: string)

  /**
   * An untyped `object?` member: a CLR null, a CLR string, or a decoded
   * JSON element. JSON `null` decodes to `Null`.
   */
  datatype Dynamic =
    | Null
    | ClrString(s: string)
    | Element(element: JsonElement)

  /** McpRequest: `jsonrpc`, `id`, `method` (here `methodName`), `params`. */
  datatype Request = Request(jsonrpc: string, id: Dynamic, methodName: string, params: Dynamic)

  /** McpError: `code`, `message`, `data`. */
  datatype RpcError = RpcError(code: int, message: string, data: Dynamic)

  /**
   * McpResponse. The record itself allows any combination of `result` and
   * `error`; that the server always sets exactly one is proved about the
   * server, not built into the type.
   */
  datatype Response = Response(jsonrpc: string, id: Dynamic, result: Option<ResultValue>, error: Option<RpcError>)

  /** The three kinds of object the server places in `Response.result`. */
  datatype ResultValue =
    | Initialized(init: InitializeResult)
    | ToolsListed(tools: seq<Tool>)
    | ToolCalled(toolResult: ToolResult)

  /** `ServerCapabilities.Tools` is set to an empty object (`new { }`). */
  datatype Capability = EmptyObject

  datatype ServerCapabilities = ServerCapabilities(tools: Option<Capability>)

  /** Implementation: the server's `name` and `version`. */
  datatype Implementation = Implementation(name: string, version: string)

  datatype InitializeResult = InitializeResult(protocolVersion: string, capabilities: ServerCapabilities, serverInfo: Implementation)

  /** One property of a tool's input schema: its name, JSON type and description. */
  datatype SchemaProperty = SchemaProperty(name: string, propertyType: string, description: string)

  /** The `inputSchema` of a tool: an object schema with properties and a `required` list. */
  datatype InputSchema = ObjectSchema(properties: seq<SchemaProperty>, required: seq<string>)

  /** McpTool: `name`, `description`, `inputSchema`. */
  datatype Tool = Tool(name: string, description: string, inputSchema: InputSchema)

  /** ToolCallParams: the tool `name` and its untyped `arguments` dictionary. */
  datatype ToolCallParams = ToolCallParams(name: string, arguments: map<string, Dynamic>)

  /** One row of the character breakdown: a character and how often it occurs. */
  datatype Entry = Entry(character: char, count: nat)

  /**
   * The anonymous result objects of the three tools. The human-readable
   * `analysis` sentence is not part of the model.
   */
  datatype Payload =
    | CountPayload(text: string, character: string, count: nat)
    | IgnoreCasePayload(text: string, character: string, count: nat, caseSensitive: bool)
    | StatsPayload(text: string, totalCharacters: nat, uniqueCharacters: nat,
                   characterBreakdown: seq<Entry>, mostFrequent: Option<Entry>)

  /**
   * `ToolContent.Text`: either the serialised form of a payload (the
   * serialiser itself is not modelled, so the payload stands for its text)
   * or a plain diagnostic message.
   */
  datatype ContentText = Serialized(payload: Payload) | Plain(message: string)

  /** ToolContent: `type` and `text`. */
  datatype ToolContent = ToolContent(contentType: string, text: ContentText)

  /** ToolResult: `content` and `isError`. */
  datatype ToolResult = ToolResult(content: seq<ToolContent>, isError: bool)

  /**
   * The outcome of `JsonSerializer.Deserialize<T>`: a value, `null`, or a
   * thrown exception with its message.
   */
  datatype Decoded<+T> = Decoded(value: T) | DecodedNull | DecodeFailed(message: string)
}
