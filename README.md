# CodeforgeAI core, modelled in Dafny

CodeforgeAI is a command-line assistant. This project models the parts of it that do
more than call other programs:

- **The GitHub Copilot language-server client.** `CopilotLSPClient` starts the Copilot
  language server and talks JSON-RPC to it over its standard input and output. Each
  message goes out in the `Content-Length` framing of the Language Server Protocol's base
  protocol.
  - A daemon reader thread decodes the server's frames. It files every response under its
    `id` in `_pending`, and keeps the last status notification and the last message.
  - `sign_in`, `inline_completion` and `panel_completion` send a request, then check
    `_pending` for their own id at most 20 times.
  - Module helpers find the server binary. They pick a package manager, ask it for the
    global `node_modules`, map the OS and machine to Copilot's folder name, and join the
    path.
- **The one-shot login handshake** of the older `github-copilot` integration. It writes
  `initialize`. On the response with id 1 it writes `initialized` and then `signIn`. On
  the response with id 2 it prints the user code and terminates the server.
  - The same file repeats `detect_package_manager`, `get_global_node_modules`,
    `get_architecture`, `get_copilot_lsp_path` and `run_copilot_lsp`, at lines 8-80.
    Their text is identical to the client's copies, which the `Platform` module models.
- **The skeleton's pure pieces.** These are `fib`, the join that makes one prompt of the
  words given, and the default configuration.
- **The Vyper helper.** `compile_contract` checks its path and builds the compiler's
  command line. `analyze_contract` derives feature flags and a contract type from the
  contract's text.

Modules, one per file:

| file | module | what it holds |
|---|---|---|
| `wrappers.dfy` | `Wrappers` | `Option`, `Result` |
| `text.dfy` | `Text` | the bytes and strings the Python code works on: UTF-8 encoding, `str(int)`, `strip`, `int()`, `in`, `lower`, `join`/`split` |
| `json.dfy` | `JsonData` | JSON values, Python dictionary keys, truthiness, the `json.dumps`/`json.loads` pair |
| `framing.dfy` | `Framing` | the frame `_send` writes and one iteration of the reader loop, with the round trip |
| `protocol.dfy` | `Protocol` | the JSON-RPC messages the client builds |
| `reader_thread.dfy` | `ReaderThread` | the reader loop's body and the reader run over a byte stream |
| `client.dfy` | `Client` | the class `CopilotLspClient` and its polling loops |
| `platform.dfy` | `Platform` | package manager, architecture, server path and command line |
| `login.dfy` | `Login` | `copilot_login` and its reading loop |
| `skeleton.dfy` | `Skeleton` | `fib`, the prompt join, the default configuration |
| `vyper.dfy` | `Vyper` | the compile command and the contract analysis |

How the environment enters the model:

- The server's output is a byte sequence fixed in advance.
- The client's writes accumulate in `stdin`.
- The reader thread advances only when a method runs it. A waiting loop takes a schedule:
  the number of reader iterations that happen before each of its checks.
- `os.getpid()`, `os.getcwd()` and file paths are parameters. So are the results of
  `shutil.which`, `check_output`, `platform.system()`, `platform.machine()`,
  `os.path.exists`, `os.path.isfile` and the file reads.

## Model

| member | source | states |
|---|---|---|
| Text.EncodeChar | src/codeforgeai/integrations/github_copilot/copilot.py:106 | one character encodes to 1-4 UTF-8 bytes; a single byte, its own code, exactly for ASCII |
| Text.Utf8 | src/codeforgeai/integrations/github_copilot/copilot.py:106 | `str.encode()` never yields fewer bytes than characters |
| Text.Utf8Append | src/codeforgeai/integrations/github_copilot/copilot.py:106 | encoding distributes over concatenation, so `header.encode() + data.encode()` is the encoding of the whole frame text |
| Text.Utf8LengthExact | src/codeforgeai/integrations/github_copilot/copilot.py:104-106 | the byte length equals the character length exactly when the text is ASCII |
| Text.Utf8Ascii | src/codeforgeai/integrations/github_copilot/copilot.py:114 | ASCII text such as `b"Content-Length:"` encodes byte for byte |
| Text.AsciiText | src/codeforgeai/integrations/github_copilot/copilot.py:115 | `bytes.decode()` of ASCII bytes is the text whose encoding they are |
| Text.Decimal | src/codeforgeai/integrations/github_copilot/copilot.py:105 | `str(n)` of a length is a non-empty string of decimal digits |
| Text.Strip | src/codeforgeai/integrations/github_copilot/copilot.py:115 | `strip()` leaves no whitespace at either end |
| Text.StripPadded | src/codeforgeai/integrations/github_copilot/copilot.py:115 | `strip()` removes exactly the surrounding whitespace |
| Text.ParseInt | src/codeforgeai/integrations/github_copilot/copilot.py:115 | `int()` succeeds only on text containing a digit |
| Text.DecimalRoundTrip | src/codeforgeai/integrations/github_copilot/copilot.py:105-115 | `int()` reads back `str(n)` even with whitespace around it |
| Text.ContainsAt | src/codeforgeai/integrations/vyper/compiler.py:112-131 | the substring test `t in s` holds exactly when `t` occurs at some index of `s` |
| Text.Contains | src/codeforgeai/integrations/vyper/compiler.py:112-131 | the substring test `t in s` |
| Text.AsciiLower | src/codeforgeai/integrations/vyper/compiler.py:131 | `lower()` keeps the length and lowers exactly the letters A-Z |
| Text.SplitJoin | src/codeforgeai/skeleton.py:108 | splitting `sep.join(words)` on `sep` gives the words back when none contains `sep` |
| Text.Join | src/codeforgeai/skeleton.py:108 | `sep.join(words)` |
| Text.Split | src/codeforgeai/skeleton.py:108 | `s.split(sep)`, the partner `Text.SplitJoin` inverts `join` with |
| JsonData.KeyOf | src/codeforgeai/integrations/github_copilot/copilot.py:119-120 | a JSON value can be a dictionary key exactly when it is not a list or an object; numbers and strings are keys by value |
| JsonData.Lookup | src/codeforgeai/integrations/github_copilot/copilot.py:121-128 | `resp.get(name)` finds a value exactly when `resp` is an object holding `name` |
| JsonData.Truthy | src/codeforgeai/integrations/github_copilot/copilot.py:158 | Python truth of a JSON value: `None`, `False`, zero and empty containers are false |
| Framing.WireAppend | src/codeforgeai/integrations/github_copilot/copilot.py:103-107 | sending one more message appends exactly its frame to what was written |
| Framing.Header | src/codeforgeai/integrations/github_copilot/copilot.py:104-105 | the header line and blank line `_send` writes for a body of `n` characters |
| Framing.Frame | src/codeforgeai/integrations/github_copilot/copilot.py:104-106 | `header.encode() + data.encode()` |
| Framing.Encode | src/codeforgeai/integrations/github_copilot/copilot.py:103-106 | the frame of `json.dumps(msg)` |
| Framing.Decode | src/codeforgeai/integrations/github_copilot/copilot.py:109-118 | the messages the reader loop decodes, in order, and whether it stopped on an exception |
| Framing.DeclaredLengthIsByteLength | src/codeforgeai/integrations/github_copilot/copilot.py:103-107 | since `json.dumps` writes ASCII, the declared `len(data)` is the byte length of the body |
| Framing.NonAsciiBodyUnderDeclared | src/codeforgeai/integrations/github_copilot/copilot.py:104-105 | for a non-ASCII body, `len(data)` would under-declare the bytes written |
| Framing.LineLength | src/codeforgeai/integrations/github_copilot/copilot.py:111 | `readline()` takes at least one byte of a non-empty stream and never more than there is |
| Framing.UpTo | src/codeforgeai/integrations/github_copilot/copilot.py:115 | `split(":")[1]` is a prefix of the text after the header name with no colon in it |
| Framing.ContentLength | src/codeforgeai/integrations/github_copilot/copilot.py:115 | `int(line.decode().split(":")[1].strip())`; a length is found only on a line that is all ASCII, and none where `decode()` or `int()` raises |
| Framing.ReadFrame | src/codeforgeai/integrations/github_copilot/copilot.py:110-118 | one loop iteration: it ends the loop exactly on an empty stream, skips exactly a line not starting with `Content-Length:`, and always consumes input |
| Framing.ReadAfterHeader | src/codeforgeai/integrations/github_copilot/copilot.py:115-118 | after a `Content-Length:` line the iteration ends in a message or an exception, never skips, and only consumes input; an unparsable length raises |
| Framing.ReadBody | src/codeforgeai/integrations/github_copilot/copilot.py:117-118 | `read(n)` raises for a length below -1 or from 2^63 on, leaving the input unread; otherwise the iteration ends in a message or an exception and only consumes input |
| Framing.ReadFrameOf | src/codeforgeai/integrations/github_copilot/copilot.py:113-117 | on a header line declaring `n`, the iteration skips one more line and reads the body with length `n` |
| Framing.HeaderFieldValue | src/codeforgeai/integrations/github_copilot/copilot.py:105-115 | the reader parses the header field `_send` writes back to the body length |
| Framing.FrameLayout | src/codeforgeai/integrations/github_copilot/copilot.py:105-117 | a frame is a header line, a blank line and the body, laid out as the reader reads them |
| Framing.ReadFrameRoundTrip | src/codeforgeai/integrations/github_copilot/copilot.py:103-118 | decoding a frame `_send` produced returns the original message and leaves the following bytes untouched |
| Framing.BodyRoundTrip | src/codeforgeai/integrations/github_copilot/copilot.py:106-118 | `read(len(data))` takes exactly the body `_send` wrote, and `json.loads` gives the message back |
| Framing.WireFront | src/codeforgeai/integrations/github_copilot/copilot.py:103-107 | the bytes of a message sent before others are its frame, then theirs |
| Framing.DecodeMessage | src/codeforgeai/integrations/github_copilot/copilot.py:116-118 | a decoded message heads the messages decoded from the rest of the stream |
| Framing.DecodeFirstFrame | src/codeforgeai/integrations/github_copilot/copilot.py:103-118 | the first frame of a written stream decodes to the first message sent |
| Framing.DecodeWire | src/codeforgeai/integrations/github_copilot/copilot.py:103-118 | the reader decodes every message sent, in send order, then whatever follows |
| Protocol.IdKey | src/codeforgeai/integrations/github_copilot/copilot.py:119-120 | a message has a `_pending` key only if it is an object with an `id` |
| Protocol.Request | src/codeforgeai/integrations/github_copilot/copilot.py:168 | a JSON-RPC 2.0 request carries its id, method and params and is not a notification |
| Protocol.Notification | src/codeforgeai/integrations/github_copilot/copilot.py:148 | a notification has no id, so the server never answers it |
| Protocol.OrEmptyList | src/codeforgeai/integrations/github_copilot/copilot.py:191-192 | `x or []` keeps a truthy value and replaces any other by the empty list |
| Protocol.InitializeRequest | src/codeforgeai/integrations/github_copilot/copilot.py:131-145 | `initialize` is a request with the fixed id 1 |
| Protocol.InitializedNotification | src/codeforgeai/integrations/github_copilot/copilot.py:148 | `initialized` is a notification with empty params |
| Protocol.SignInRequest | src/codeforgeai/integrations/github_copilot/copilot.py:153 | `signIn` is a request with the fixed id 2 and empty params |
| Protocol.SignOutRequest | src/codeforgeai/integrations/github_copilot/copilot.py:168 | `signOut` is a request under the id it was given |
| Protocol.DidChangeConfiguration | src/codeforgeai/integrations/github_copilot/copilot.py:177-183 | a notification whose params are `{"settings": settings}` |
| Protocol.DidChangeWorkspaceFolders | src/codeforgeai/integrations/github_copilot/copilot.py:185-196 | a notification whose event lists `added or []` and `removed or []` |
| Protocol.DidOpen | src/codeforgeai/integrations/github_copilot/copilot.py:198-213 | `textDocument/didOpen` is a notification |
| Protocol.DidChange | src/codeforgeai/integrations/github_copilot/copilot.py:215-227 | `textDocument/didChange` is a notification |
| Protocol.DidClose | src/codeforgeai/integrations/github_copilot/copilot.py:229-239 | `textDocument/didClose` is a notification |
| Protocol.DidFocus | src/codeforgeai/integrations/github_copilot/copilot.py:241-244 | the params are empty exactly when no file path (or an empty one) is given |
| Protocol.InlineCompletionRequest | src/codeforgeai/integrations/github_copilot/copilot.py:246-258 | an inline-completion request under the given id |
| Protocol.PanelCompletionRequest | src/codeforgeai/integrations/github_copilot/copilot.py:268-279 | a panel-completion request under the given id |
| Protocol.ExecuteCommandRequest | src/codeforgeai/integrations/github_copilot/copilot.py:288-295 | a request whose params are the command and `arguments or []` |
| Protocol.UserCode | src/codeforgeai/integrations/github_copilot/copilot.py:159 | `resp["result"]["userCode"]` succeeds exactly when both lookups find their key |
| ReaderThread.Dispatch | src/codeforgeai/integrations/github_copilot/copilot.py:119-129 | the thread goes on exactly for a message it handles without raising; the message is filed under its id and only there; the status changes only on a status notification and becomes its params; a handled message becomes the last response; log messages are printed; correlation is kept |
| ReaderThread.Step | src/codeforgeai/integrations/github_copilot/copilot.py:110-129 | a stopped thread stays stopped; an empty read stops it; a step never adds input |
| ReaderThread.RunSnoc | src/codeforgeai/integrations/github_copilot/copilot.py:110 | `n + 1` iterations are `n` iterations and one more |
| ReaderThread.Run | src/codeforgeai/integrations/github_copilot/copilot.py:109-129 | `n` iterations of the `while True` loop |
| ReaderThread.RunCorrelated | src/codeforgeai/integrations/github_copilot/copilot.py:119-120 | every entry of `_pending` stays filed under its own id, however long the thread runs |
| ReaderThread.RunStopped | src/codeforgeai/integrations/github_copilot/copilot.py:112-113 | after the loop has ended nothing changes |
| ReaderThread.EndOfInput | src/codeforgeai/integrations/github_copilot/copilot.py:111-113 | an empty read ends the loop and changes no field |
| ReaderThread.LastWith | src/codeforgeai/integrations/github_copilot/copilot.py:119-120 | the last message with a given id is one of the messages and carries that id |
| ReaderThread.LastWithCons | src/codeforgeai/integrations/github_copilot/copilot.py:119-120 | a later message with the id overrides an earlier one |
| ReaderThread.DeliverLastWins | src/codeforgeai/integrations/github_copilot/copilot.py:119-120 | after a run of handled messages, the entry under each key is the last message with that id, or the old entry if none had it |
| ReaderThread.Deliver | src/codeforgeai/integrations/github_copilot/copilot.py:119-129 | the loop body applied to messages in order, until one raises |
| ReaderThread.DeliverCorrelated | src/codeforgeai/integrations/github_copilot/copilot.py:119-120 | handling messages keeps every entry filed under its own id |
| ReaderThread.WireStates | src/codeforgeai/integrations/github_copilot/copilot.py:103-117 | the stream before each frame of a written sequence starts with the whole wire and ends with what follows |
| ReaderThread.WireChain | src/codeforgeai/integrations/github_copilot/copilot.py:103-118 | each frame of a written stream reads back as its message and leaves the next frame |
| ReaderThread.WireFrame | src/codeforgeai/integrations/github_copilot/copilot.py:103-118 | the `i`-th frame decodes to the `i`-th message sent |
| ReaderThread.RunChain | src/codeforgeai/integrations/github_copilot/copilot.py:110-129 | running the thread over a chain of frames handles their messages in order |
| ReaderThread.DeliverCons | src/codeforgeai/integrations/github_copilot/copilot.py:119-129 | handling the first message and then the rest is handling them all |
| ReaderThread.RunWire | src/codeforgeai/integrations/github_copilot/copilot.py:103-129 | reading frames the client's `_send` would write updates the fields exactly as handling the messages in order does |
| ReaderThread.StepMessage | src/codeforgeai/integrations/github_copilot/copilot.py:116-129 | a step that decodes a message applies the loop body to it |
| ReaderThread.DispatchAgree | src/codeforgeai/integrations/github_copilot/copilot.py:119-120 | what the body files under a key does not depend on the other entries |
| ReaderThread.StepAgree | src/codeforgeai/integrations/github_copilot/copilot.py:110-129 | one iteration keeps two readers that agree on a key in agreement |
| ReaderThread.RunAgree | src/codeforgeai/integrations/github_copilot/copilot.py:119-120 | the entry under a key depends only on the stream and the old entry under that key |
| Client.PollFrom | src/codeforgeai/integrations/github_copilot/copilot.py:156-165 | a waiting loop returns the truthy entry under its key present at the first check that saw one, with the reader as it was then; it returns nothing only when all 20 checks saw none, and then the reader is the one after the last check |
| Client.Hit | src/codeforgeai/integrations/github_copilot/copilot.py:262-263 | `_pending.get(key)` is truthy |
| Client.ReaderAt | src/codeforgeai/integrations/github_copilot/copilot.py:261-265 | the reader right after the iterations before check `j` |
| Client.PresentIsFound | src/codeforgeai/integrations/github_copilot/copilot.py:261-266 | an entry present at any check is found, at that check or earlier |
| Client.PollOwnId | src/codeforgeai/integrations/github_copilot/copilot.py:261-264 | what a waiting loop finds is a response carrying the very id it waits for |
| Client.PollIndependent | src/codeforgeai/integrations/github_copilot/copilot.py:261-266 | entries under other ids never change what a waiting loop finds or how many checks it takes |
| Client.CompletionResult | src/codeforgeai/integrations/github_copilot/copilot.py:262-266 | `None` after 20 misses; otherwise the response's `result`, or `{}` without one |
| Client.SignInOutcome | src/codeforgeai/integrations/github_copilot/copilot.py:157-165 | `None` after 20 misses; otherwise the user code, or an exception when it is missing |
| Client.CopilotLspClient.constructor | src/codeforgeai/integrations/github_copilot/copilot.py:85-93 | the counter starts at 100, nothing is pending or written, and the reader starts on the server's output |
| Client.CopilotLspClient.NextId | src/codeforgeai/integrations/github_copilot/copilot.py:99-101 | ids increase by one from 101 and are never handed out twice, so they never equal 1 or 2 |
| Client.CopilotLspClient.Send | src/codeforgeai/integrations/github_copilot/copilot.py:103-107 | exactly the message's frame is appended to the server's input; nothing else changes |
| Client.CopilotLspClient.Handle | src/codeforgeai/integrations/github_copilot/copilot.py:119-129 | the fields change as the loop body says, in place, and correlation is kept |
| Client.CopilotLspClient.ReadOne | src/codeforgeai/integrations/github_copilot/copilot.py:110-129 | one reader iteration on the fields, as the reader specification says |
| Client.CopilotLspClient.RunReader | src/codeforgeai/integrations/github_copilot/copilot.py:110-129 | `n` reader iterations, leaving the client's own side alone |
| Client.CopilotLspClient.Check | src/codeforgeai/integrations/github_copilot/copilot.py:262-263 | after the scheduled reader steps, the check hits exactly when the entry under the key is truthy |
| Client.CopilotLspClient.Poll | src/codeforgeai/integrations/github_copilot/copilot.py:261-266 | the `for` loop computes the waiting-loop specification and finds only a response to its own id |
| Client.CopilotLspClient.Initialize | src/codeforgeai/integrations/github_copilot/copilot.py:131-149 | sends `initialize` and then `initialized` |
| Client.CopilotLspClient.SignIn | src/codeforgeai/integrations/github_copilot/copilot.py:151-165 | sends `initialize`, `initialized` and `signIn`, waits for id 2 and returns its user code, `None`, or an exception |
| Client.CopilotLspClient.SignOut | src/codeforgeai/integrations/github_copilot/copilot.py:167-170 | sends `signOut` under the next id, which is recorded as issued; the reader and the server are untouched |
| Client.CopilotLspClient.Status | src/codeforgeai/integrations/github_copilot/copilot.py:172-175 | returns the last status the reader has taken; sends nothing, issues no id and leaves the server running |
| Client.CopilotLspClient.DidChangeConfiguration | src/codeforgeai/integrations/github_copilot/copilot.py:177-183 | sends exactly that notification; issues no id, leaves the reader and the server as they were |
| Client.CopilotLspClient.DidChangeWorkspaceFolders | src/codeforgeai/integrations/github_copilot/copilot.py:185-196 | sends exactly that notification; issues no id, leaves the reader and the server as they were |
| Client.CopilotLspClient.DidOpen | src/codeforgeai/integrations/github_copilot/copilot.py:198-213 | sends exactly that notification with the file's text, the language `python` and version 1 unless given; issues no id, leaves the reader and the server as they were |
| Client.CopilotLspClient.DidChange | src/codeforgeai/integrations/github_copilot/copilot.py:215-227 | sends exactly that notification, version 2 unless given; issues no id, leaves the reader and the server as they were |
| Client.CopilotLspClient.DidClose | src/codeforgeai/integrations/github_copilot/copilot.py:229-239 | sends exactly that notification; issues no id, leaves the reader and the server as they were |
| Client.CopilotLspClient.DidFocus | src/codeforgeai/integrations/github_copilot/copilot.py:241-244 | sends exactly that notification, for no file unless one is given; issues no id, leaves the reader and the server as they were |
| Client.CopilotLspClient.InlineCompletion | src/codeforgeai/integrations/github_copilot/copilot.py:246-266 | sends the request (version 1, tab size 4, spaces, unless given) under the next id, recorded as issued, waits for that id only, and returns its `result`, `{}` or `None`; the server keeps running |
| Client.CopilotLspClient.PanelCompletion | src/codeforgeai/integrations/github_copilot/copilot.py:268-286 | as the inline completion, for the panel request (version 1 unless given) |
| Client.CopilotLspClient.ExecuteCommand | src/codeforgeai/integrations/github_copilot/copilot.py:288-295 | sends the command, with no arguments unless given, under the next id, recorded as issued; the reader and the server are untouched |
| Client.CopilotLspClient.Shutdown | src/codeforgeai/integrations/github_copilot/copilot.py:297-299 | terminates the server; sends nothing, issues no id, leaves the reader as it was |
| Platform.FirstFrom | src/codeforgeai/integrations/github_copilot/copilot.py:13-15 | finds the first available candidate from a position, or reports that none is available |
| Platform.Preferred | src/codeforgeai/integrations/github_copilot/copilot.py:11-16 | the package manager `detect_package_manager` picks, from `FirstFrom` over pnpm, yarn, npm |
| Platform.DetectPackageManager | src/codeforgeai/integrations/github_copilot/copilot.py:11-16 | succeeds exactly when pnpm, yarn or npm is available, and returns the first of them in that order; otherwise the error |
| Platform.PosixJoin | src/codeforgeai/integrations/github_copilot/copilot.py:25 | `os.path.join`: an absolute part replaces the path; otherwise exactly one separator between |
| Platform.RootCommand | src/codeforgeai/integrations/github_copilot/copilot.py:21-27 | yarn is asked `global dir`; pnpm and npm `root -g` |
| Platform.GlobalNodeModules | src/codeforgeai/integrations/github_copilot/copilot.py:18-30 | the stripped output, with `node_modules` added for yarn; an error when the command fails |
| Platform.SystemName | src/codeforgeai/integrations/github_copilot/copilot.py:34-44 | Darwin, Linux and Windows are known, as `darwin`, `linux` and `win32`, and nothing else |
| Platform.ArchName | src/codeforgeai/integrations/github_copilot/copilot.py:39-45 | x86_64 and AMD64 become x64; every other machine name is kept |
| Platform.GetArchitecture | src/codeforgeai/integrations/github_copilot/copilot.py:32-48 | `<os>-<arch>` exactly for a known OS and a non-empty machine; otherwise the error |
| Platform.SplitFirstJoined | src/codeforgeai/integrations/github_copilot/copilot.py:48 | cutting at the first separator undoes joining with it |
| Platform.FolderNameParses | src/codeforgeai/integrations/github_copilot/copilot.py:48 | the folder name splits back into the OS and the architecture |
| Platform.FolderNameInjective | src/codeforgeai/integrations/github_copilot/copilot.py:32-48 | two platforms with the same folder name agree on OS and architecture |
| Platform.JoinBelow | src/codeforgeai/integrations/github_copilot/copilot.py:54-56 | joining a relative name below a directory puts one separator between |
| Platform.LspPath | src/codeforgeai/integrations/github_copilot/copilot.py:50-52 | the five `os.path.join` steps below the global `node_modules` |
| Platform.LspPathLayout | src/codeforgeai/integrations/github_copilot/copilot.py:54-56 | the binary lies at `node_modules/@github/copilot-language-server/native/<arch>/copilot-language-server` |
| Platform.GetCopilotLspPath | src/codeforgeai/integrations/github_copilot/copilot.py:50-59 | the failures come in the source's order; the path is returned exactly when every lookup succeeds and the file at `LspPath` exists, and a missing binary is reported at that path |
| Platform.RunArgs | src/codeforgeai/integrations/github_copilot/copilot.py:75-82 | the server runs as `[path, "--stdio"]` followed by the extra arguments, and fails exactly when the path lookup fails |
| Login.React | src/codeforgeai/integrations/github-copilot/copilot.py:116-145 | a non-object raises; id 1 gets the reply; id 2 with a user code finishes with it, and without one raises; anything else is ignored |
| Login.IdEquals | src/codeforgeai/integrations/github-copilot/copilot.py:116-138 | `resp.get("id") == n` by Python key equality |
| Login.Script | src/codeforgeai/integrations/github-copilot/copilot.py:107-145 | an empty stream writes nothing and ends as it ended |
| Login.Handshake | src/codeforgeai/integrations/github-copilot/copilot.py:107-145 | the loop over bytes ends at once on an empty stream |
| Login.WireAnswer | src/codeforgeai/integrations/github-copilot/copilot.py:119-138 | the reply writes the `initialized` frame and then the `signIn` frame |
| Login.AnswerWritten | src/codeforgeai/integrations/github-copilot/copilot.py:119-138 | after a reply, the bytes written are those of the longer transcript |
| Login.CopilotLogin | src/codeforgeai/integrations/github-copilot/copilot.py:81-148 | writes `initialize` first, then what the loop writes; the server is terminated exactly when a user code is issued |
| Login.HandshakeScript | src/codeforgeai/integrations/github-copilot/copilot.py:107-145 | the byte-level loop is the message-level loop on what the frames decode to |
| Login.ScriptWritesPairs | src/codeforgeai/integrations/github-copilot/copilot.py:116-137 | after `initialize`, the loop writes one `initialized`/`signIn` pair for each id-1 response read before the loop stops, and nothing else |
| Login.StopIndex | src/codeforgeai/integrations/github-copilot/copilot.py:138-144 | the first message that ends the loop: no earlier one ends it, and it does unless it is the end of the list |
| Login.RepliesIn | src/codeforgeai/integrations/github-copilot/copilot.py:116-137 | the number of id-1 responses among the first `n` messages |
| Login.IgnoredMessage | src/codeforgeai/integrations/github-copilot/copilot.py:117-145 | a message that is neither id 1 nor id 2 can be dropped from anywhere without effect |
| Login.NothingAfterCode | src/codeforgeai/integrations/github-copilot/copilot.py:139-145 | once the code is issued, nothing later in the stream matters |
| Login.CodeFromFirstStop | src/codeforgeai/integrations/github-copilot/copilot.py:139-145 | the code issued is that of the first id-2 response, if nothing ended the loop before it |
| Login.CodeOnlyFromStop | src/codeforgeai/integrations/github-copilot/copilot.py:139-145 | a code is issued only from such a response |
| Login.TranscriptDecodes | src/codeforgeai/integrations/github-copilot/copilot.py:101-138 | the server reads `initialize` and then exactly what the loop wrote |
| Login.ScriptHappyPath | src/codeforgeai/integrations/github-copilot/copilot.py:116-145 | an id-1 reply and then an id-2 reply with a code write one pair and issue that code |
| Login.HappyPath | src/codeforgeai/integrations/github-copilot/copilot.py:107-145 | the same on framed bytes |
| Skeleton.Fib | src/codeforgeai/skeleton.py:45-58 | the loop returns the `n`-th Fibonacci number, for the `n > 0` the source asserts |
| Skeleton.FibPositive | src/codeforgeai/skeleton.py:55-58 | every result is at least 1 |
| Skeleton.FibMonotone | src/codeforgeai/skeleton.py:55-58 | results never decrease as `n` grows |
| Skeleton.PromptHoldsWords | src/codeforgeai/skeleton.py:108 | the combined prompt holds every word in order, one space after the previous word |
| Skeleton.StartShift | src/codeforgeai/skeleton.py:108 | each word's position shifts by the first word and its space |
| Skeleton.PromptSplitsBack | src/codeforgeai/skeleton.py:108 | splitting the combined prompt on spaces gives the words back when none contains a space |
| Skeleton.CombinedPrompt | src/codeforgeai/skeleton.py:108 | `" ".join(user_prompt)` |
| Skeleton.DefaultConfigKeys | src/codeforgeai/skeleton.py:63-68 | the keys are exactly a model entry and a prompt entry for each of `general` and `code` |
| Skeleton.DefaultConfig | src/codeforgeai/skeleton.py:63-68 | the dictionary `create_default_config` writes |
| Skeleton.DefaultModels | src/codeforgeai/skeleton.py:64-66 | each role's model is `ollama_<role>` |
| Skeleton.DefaultPrompts | src/codeforgeai/skeleton.py:65-67 | each prompt ends with the colon that introduces the request |
| Vyper.Passed | src/codeforgeai/integrations/vyper/compiler.py:31-39 | an option reaches the compiler exactly when it is given and non-empty |
| Vyper.Flag | src/codeforgeai/integrations/vyper/compiler.py:31-40 | an option adds two entries when it counts and none otherwise |
| Vyper.Command | src/codeforgeai/integrations/vyper/compiler.py:28-42 | `vyper`, the options passed, in order, then the file |
| Vyper.DefaultCommand | src/codeforgeai/integrations/vyper/compiler.py:8-32 | with the defaults (`output_format='abi'`, no optimisation mode, no EVM version) the command is `vyper -f abi <file>` |
| Vyper.CompileCommand | src/codeforgeai/integrations/vyper/compiler.py:8-42 | the format defaults to `abi` and the other options to absent; a missing file is reported first, then a name not ending in `.vy`; otherwise the command starts with `vyper`, ends with the path, and holds the options that count in order |
| Vyper.TakeFlag | src/codeforgeai/integrations/vyper/compiler.py:31-40 | reading a flag back never lengthens the arguments |
| Vyper.TakeGiven | src/codeforgeai/integrations/vyper/compiler.py:31-40 | one option's entries read back as the option |
| Vyper.CommandRoundTrip | src/codeforgeai/integrations/vyper/compiler.py:24-42 | the command reads back as the options that count, each once and in place, and the path as the one file |
| Vyper.FeaturesAreOccurrences | src/codeforgeai/integrations/vyper/compiler.py:112-120 | each of the nine flags holds exactly when its markers occur; `has_interfaces` is `interface ` or both `from ` and ` import ` |
| Vyper.FeaturesOf | src/codeforgeai/integrations/vyper/compiler.py:112-120 | the `features` dictionary, one `in` test per flag |
| Vyper.ContractTypeOf | src/codeforgeai/integrations/vyper/compiler.py:124-134 | the `if`/`elif` chain of `contract_type` |
| Vyper.FirstMatchWins | src/codeforgeai/integrations/vyper/compiler.py:125-134 | a rule table read from the top yields the first rule that applies, or `Generic` when none does |
| Vyper.AllOf2 | src/codeforgeai/integrations/vyper/compiler.py:125-129 | a two-marker alternative holds exactly when both markers occur |
| Vyper.RuleOf2 | src/codeforgeai/integrations/vyper/compiler.py:125-129 | a one-alternative rule of two markers applies exactly when both occur |
| Vyper.CrowdfundApplies | src/codeforgeai/integrations/vyper/compiler.py:131 | Crowdfund applies exactly when the lowered text has `crowdfund`, or the lowered text has `fund` and the text as written has `goal` |
| Vyper.ChainIsTable | src/codeforgeai/integrations/vyper/compiler.py:125-134 | the `if`/`elif` chain equals the table Auction, Token, Voting, Crowdfund read from the top |
| Vyper.AnalyzeContract | src/codeforgeai/integrations/vyper/compiler.py:101-139 | a missing file, then an unreadable one, are reported; otherwise the path, size, flags and the first type that applies |

## Left out

- Processes, pipes and threads. `subprocess.Popen`, `check_output`, `check_call`,
  `run`, `terminate` and the reader thread are not modelled as concurrent processes.
  - The server's output is fixed in advance. It does not react to what the client writes.
  - The reader runs only inside the client's methods: the waiting loops' checks and
    `status`.
  - The race in `__init__` is not modelled. There the thread starts before `_status` and
    `_last_response` are set.
- Time. `time.sleep` is left out. A waiting loop's schedule says how many reader
  iterations happen before each check, so the waits' lengths are not modelled.
- `json.dumps` and `json.loads` are a pair of functions taken as given. They are assumed
  to write ASCII and to read their own output back. Floating-point JSON numbers are left
  out.
- Framing.ContentLength: `line.decode()` is modelled as succeeding exactly on an ASCII
  line. A line holding any other byte counts as an exception, although Python decodes
  valid UTF-8 there and `int()` would accept Unicode digits and whitespace in the field.
- `json.dumps` output and declared lengths are bounded by `sys.maxsize` of a 64-bit
  build: `read(n)` raises from 2^63 on, and the serializer's output is taken to be
  shorter than that.
- `None` and JSON `null` are one value, `JNull`. A completion that times out and a
  response whose `result` is `null` both give `JNull`.
- `print` is left out. Log messages are kept in `logged`.
- The user-code and completion results are returned, not printed. The CLI wrappers
  (`copilot_login`, `copilot_logout`, `copilot_status` and the completion commands of
  the client file) are not modelled.
- `os.getpid()`, `os.getcwd()`, `os.path.abspath`, `uuid.uuid4()`, `os.path.exists`,
  `os.path.isfile`, `os.path.getsize`, `shutil.which` and file reads are parameters.
- Client.CopilotLspClient.InlineCompletion, Client.CopilotLspClient.PanelCompletion: the
  parameters that stand for the clock and `uuid.uuid4()` (`schedule`, `token`) come
  before the parameters with default values, so the defaults keep the source's values
  but not its positions.
- Paths are POSIX paths. Windows separators are not modelled.
- `install_copilot_language_server` only runs an installer and prints. It is left out.
- The `copilot_autocomplete` stubs have no body and are left out.
- Vyper.CompileCommand: the compiler run, the parsing of its output and the error
  dictionaries for its failures are left out. The model stops at the command line.
- `check_vyper_installed` only runs the compiler. It is left out.
- Vyper.AnalyzeContract, Vyper.CrowdfundApplies: `str.lower()` is modelled for ASCII
  letters only. Python also lowers other Unicode letters.
- Skeleton.Fib: `fib(n)` for `n <= 0` raises `AssertionError`. The model makes
  `n > 0` a precondition instead.
- The rest of `skeleton.py` is left out: `load_config`, the file writes,
  `analyze_working_directory`, the placeholder AI calls, argument parsing and logging.
