/** The JSON-RPC 2.0 messages the client sends: the request and notification envelopes
    (sections 4 and 4.1 of the JSON-RPC 2.0 specification) and the Language Server
    Protocol methods built on them. */
module Protocol {
  import opened Wrappers
  import opened JsonData

  /** `msg.get(name) == method` for a string method name. */
  predicate HasMethod(m: Json, name: string) {
    Lookup(m, "method") == Some(JStr(name))
  }

  /** The `_pending` key a message is filed under: its `id`, when it has one that can be
      a dictionary key. */
  function IdKey(m: Json): (k: Option<Key>)
    ensures k.Some? ==> m.JObj? && "id" in m.fields
  {
    match Lookup(m, "id")
    case None => None
    case Some(v) => KeyOf(v)
  }

  /** A request object: version tag, an `id` and a method name. */
  predicate IsRequest(m: Json) {
    && Lookup(m, "jsonrpc") == Some(JStr("2.0"))
    && m.JObj? && "id" in m.fields
    && Lookup(m, "method").Some? && Lookup(m, "method").value.JStr?
  }

  /** A notification: a request object without an `id`. */
  predicate IsNotification(m: Json) {
    && Lookup(m, "jsonrpc") == Some(JStr("2.0"))
    && m.JObj? && "id" !in m.fields
    && Lookup(m, "method").Some? && Lookup(m, "method").value.JStr?
  }

  function Request(id: int, name: string, params: Json): (r: Json)
    ensures IsRequest(r) && !IsNotification(r)
    ensures IdKey(r) == Some(KInt(id)) && HasMethod(r, name)
    ensures Lookup(r, "params") == Some(params)
  {
    JObj(map["jsonrpc" := JStr("2.0"), "id" := JInt(id), "method" := JStr(name), "params" := params])
  }

  function Notification(name: string, params: Json): (r: Json)
    ensures IsNotification(r) && !IsRequest(r)
    ensures IdKey(r) == None && HasMethod(r, name)
    ensures Lookup(r, "params") == Some(params)
  {
    JObj(map["jsonrpc" := JStr("2.0"), "method" := JStr(name), "params" := params])
  }

  function Obj1(k: string, v: Json): Json { JObj(map[k := v]) }

  function Obj2(k1: string, v1: Json, k2: string, v2: Json): Json { JObj(map[k1 := v1, k2 := v2]) }

  const EmptyObject: Json := JObj(map[])

  /** `x or []` */
  function OrEmptyList(x: Json): (r: Json)
    ensures Truthy(x) ==> r == x
    ensures !Truthy(x) ==> r == JArr([])
  {
    if Truthy(x) then x else JArr([])
  }

  /** `f"file://{path}"` for an absolute path. */
  function FileUri(path: string): string { "file://" + path }

  const InitializeId := 1
  const SignInId := 2

  /** `initialize`, with the fixed id 1, the process id and the working directory. */
  function InitializeRequest(pid: int, cwd: string): (r: Json)
    ensures IsRequest(r) && IdKey(r) == Some(KInt(InitializeId)) && HasMethod(r, "initialize")
  {
    Request(InitializeId, "initialize", JObj(map[
      "processId" := JInt(pid),
      "workspaceFolders" := JArr([Obj1("uri", JStr(FileUri(cwd)))]),
      "capabilities" := Obj1("workspace", Obj1("workspaceFolders", JBool(true))),
      "initializationOptions" := Obj2(
        "editorInfo", Obj2("name", JStr("CodeforgeAI"), "version", JStr("1.0.0")),
        "editorPluginInfo", Obj2("name", JStr("CodeforgeAI Copilot"), "version", JStr("1.0.0")))]))
  }

  /** The `initialized` notification, with empty parameters. */
  function InitializedNotification(): (r: Json)
    ensures IsNotification(r) && IdKey(r) == None && HasMethod(r, "initialized")
    ensures Lookup(r, "params") == Some(EmptyObject)
  {
    Notification("initialized", EmptyObject)
  }

  /** `signIn`, with the fixed id 2. */
  function SignInRequest(): (r: Json)
    ensures IsRequest(r) && IdKey(r) == Some(KInt(SignInId)) && HasMethod(r, "signIn")
    ensures Lookup(r, "params") == Some(EmptyObject)
  {
    Request(SignInId, "signIn", EmptyObject)
  }

  function SignOutRequest(id: int): (r: Json)
    ensures IsRequest(r) && IdKey(r) == Some(KInt(id)) && HasMethod(r, "signOut")
  {
    Request(id, "signOut", EmptyObject)
  }

  function DidChangeConfiguration(settings: Json): (r: Json)
    ensures IsNotification(r) && HasMethod(r, "workspace/didChangeConfiguration")
    ensures Lookup(r, "params") == Some(Obj1("settings", settings))
  {
    Notification("workspace/didChangeConfiguration", Obj1("settings", settings))
  }

  /** The folder-change event; a missing or empty list is sent as `[]`. */
  function DidChangeWorkspaceFolders(added: Json, removed: Json): (r: Json)
    ensures IsNotification(r) && HasMethod(r, "workspace/didChangeWorkspaceFolders")
    ensures Lookup(r, "params") == Some(Obj1("event", Obj2("added", OrEmptyList(added), "removed", OrEmptyList(removed))))
  {
    Notification("workspace/didChangeWorkspaceFolders",
      Obj1("event", Obj2("added", OrEmptyList(added), "removed", OrEmptyList(removed))))
  }

  function DidOpen(path: string, languageId: string, version: int, text: string): (r: Json)
    ensures IsNotification(r) && HasMethod(r, "textDocument/didOpen")
  {
    Notification("textDocument/didOpen", Obj1("textDocument", JObj(map[
      "uri" := JStr(FileUri(path)),
      "languageId" := JStr(languageId),
      "version" := JInt(version),
      "text" := JStr(text)])))
  }

  function DidChange(path: string, text: string, version: int): (r: Json)
    ensures IsNotification(r) && HasMethod(r, "textDocument/didChange")
  {
    Notification("textDocument/didChange", Obj2(
      "textDocument", Obj2("uri", JStr(FileUri(path)), "version", JInt(version)),
      "contentChanges", JArr([Obj1("text", JStr(text))])))
  }

  function DidClose(path: string): (r: Json)
    ensures IsNotification(r) && HasMethod(r, "textDocument/didClose")
  {
    Notification("textDocument/didClose", Obj1("textDocument", Obj1("uri", JStr(FileUri(path)))))
  }

  /** Focus on a document, or on none when the path is absent or empty. */
  function DidFocus(path: Option<string>): (r: Json)
    ensures IsNotification(r) && HasMethod(r, "textDocument/didFocus")
    ensures Lookup(r, "params") == Some(EmptyObject) <==> path.None? || path.value == ""
  {
    var params := if path.Some? && path.value != ""
      then Obj1("textDocument", Obj1("uri", JStr(FileUri(path.value))))
      else EmptyObject;
    assert path.Some? && path.value != "" ==> "textDocument" in params.fields && "textDocument" !in EmptyObject.fields;
    Notification("textDocument/didFocus", params)
  }

  function InlineCompletionRequest(id: int, path: string, line: int, character: int, version: int,
                                   tabSize: int, insertSpaces: bool): (r: Json)
    ensures IsRequest(r) && IdKey(r) == Some(KInt(id)) && HasMethod(r, "textDocument/inlineCompletion")
  {
    Request(id, "textDocument/inlineCompletion", JObj(map[
      "textDocument" := Obj2("uri", JStr(FileUri(path)), "version", JInt(version)),
      "position" := Obj2("line", JInt(line), "character", JInt(character)),
      "context" := Obj1("triggerKind", JInt(2)),
      "formattingOptions" := Obj2("tabSize", JInt(tabSize), "insertSpaces", JBool(insertSpaces))]))
  }

  function PanelCompletionRequest(id: int, path: string, line: int, character: int, version: int,
                                  token: string): (r: Json)
    ensures IsRequest(r) && IdKey(r) == Some(KInt(id)) && HasMethod(r, "textDocument/copilotPanelCompletion")
  {
    Request(id, "textDocument/copilotPanelCompletion", JObj(map[
      "textDocument" := Obj2("uri", JStr(FileUri(path)), "version", JInt(version)),
      "position" := Obj2("line", JInt(line), "character", JInt(character)),
      "partialResultToken" := JStr(token)]))
  }

  function ExecuteCommandRequest(id: int, command: Json, arguments: Json): (r: Json)
    ensures IsRequest(r) && IdKey(r) == Some(KInt(id)) && HasMethod(r, "workspace/executeCommand")
    ensures Lookup(r, "params") == Some(Obj2("command", command, "arguments", OrEmptyList(arguments)))
  {
    Request(id, "workspace/executeCommand", Obj2("command", command, "arguments", OrEmptyList(arguments)))
  }

  /** `resp["result"]["userCode"]` on a `signIn` response; `None` where Python raises
      (no `result`, or a `result` without a `userCode`). */
  function UserCode(resp: Json): (r: Option<Json>)
    ensures r.Some? <==> Lookup(resp, "result").Some? && Lookup(Lookup(resp, "result").value, "userCode").Some?
  {
    match Lookup(resp, "result")
    case None => None
    case Some(res) => Lookup(res, "userCode")
  }
}
