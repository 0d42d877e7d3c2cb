/** `CopilotLSPClient`: the client object that talks to the language server over its
    standard input and output. The server's output is given in advance as bytes; the
    reader thread is the `Reader` of the `ReaderThread` module, advanced by `RunReader`
    whenever the client looks at what it filed. */
module Client {
  import opened Wrappers
  import opened Text
  import opened JsonData
  import opened Framing
  import opened Protocol
  import opened ReaderThread

  /** `for _ in range(20)` in the waiting loops. */
  const Checks: nat := 20

  /** How many reader iterations happen before check `i`: the thread interleaving. */
  function StepsAt(schedule: seq<nat>, i: nat): nat {
    if i < |schedule| then schedule[i] else 0
  }

  /** The outcome of a waiting loop: the reader afterwards, the entry found, and how
      many checks found nothing. */
  datatype Wait = Wait(reader: Reader, found: Option<Json>, misses: nat)

  /** `_pending.get(key)` is truthy in the reader's table. */
  predicate Hit(rd: Reader, key: Key) {
    key in rd.session.pending && Truthy(rd.session.pending[key])
  }

  /** The reader right after the steps of check `j`, for a wait that starts at check `i`
      with reader `r`. */
  function ReaderAt(codec: Codec, r: Reader, schedule: seq<nat>, i: nat, j: nat): Reader
    requires i <= j
    decreases j - i
  {
    var r1 := Run(codec, r, StepsAt(schedule, i));
    if j == i then r1 else ReaderAt(codec, r1, schedule, i + 1, j)
  }

  /** The waiting loop from check `i` on: the reader makes `StepsAt(schedule, i)`
      iterations, then `_pending.get(key)` is checked; a truthy entry is returned at once,
      otherwise the loop goes on to the next check, and after the last one it gives up.
      The entry found is the one present at the first check that saw one; no entry means
      that every check saw none. */
  function PollFrom(codec: Codec, r: Reader, key: Key, schedule: seq<nat>, i: nat): (w: Wait)
    requires i <= Checks
    ensures i <= w.misses <= Checks
    ensures w.found.None? <==> w.misses == Checks
    ensures w.found.Some? ==> key in w.reader.session.pending && w.reader.session.pending[key] == w.found.value
    ensures w.found.Some? ==> Truthy(w.found.value)
    ensures w.found.Some? ==> w.reader == ReaderAt(codec, r, schedule, i, w.misses)
    ensures forall j :: i <= j < w.misses ==> !Hit(ReaderAt(codec, r, schedule, i, j), key)
    ensures w.found.None? && i < Checks ==> w.reader == ReaderAt(codec, r, schedule, i, Checks - 1)
    decreases Checks - i
  {
    if i == Checks then Wait(r, None, Checks)
    else
      var r1 := Run(codec, r, StepsAt(schedule, i));
      if Hit(r1, key) then Wait(r1, Some(r1.session.pending[key]), i)
      else PollFrom(codec, r1, key, schedule, i + 1)
  }

  /** An entry present at any check is found, at that check or an earlier one. */
  lemma PresentIsFound(codec: Codec, r: Reader, key: Key, schedule: seq<nat>, i: nat, j: nat)
    requires i <= j < Checks && Hit(ReaderAt(codec, r, schedule, i, j), key)
    ensures var w := PollFrom(codec, r, key, schedule, i);
      w.found.Some? && w.misses <= j
  {
  }

  /** A waiter only ever gets the entry filed under its own id. */
  lemma {:induction false} PollOwnId(codec: Codec, r: Reader, key: Key, schedule: seq<nat>, i: nat)
    requires i <= Checks && Correlated(r.session.pending)
    ensures var w := PollFrom(codec, r, key, schedule, i);
      Correlated(w.reader.session.pending) && (w.found.Some? ==> IdKey(w.found.value) == Some(key))
    decreases Checks - i
  {
    if i < Checks {
      RunCorrelated(codec, r, StepsAt(schedule, i));
      PollOwnId(codec, Run(codec, r, StepsAt(schedule, i)), key, schedule, i + 1);
    }
  }

  /** What a waiter gets depends only on the stream and on the entry under its own key:
      entries under other ids never affect it. */
  lemma {:induction false} PollIndependent(codec: Codec, r1: Reader, r2: Reader, key: Key, schedule: seq<nat>, i: nat)
    requires i <= Checks && AgreeOn(r1, r2, key)
    ensures PollFrom(codec, r1, key, schedule, i).found == PollFrom(codec, r2, key, schedule, i).found
    ensures PollFrom(codec, r1, key, schedule, i).misses == PollFrom(codec, r2, key, schedule, i).misses
    decreases Checks - i
  {
    if i < Checks {
      var n := StepsAt(schedule, i);
      RunAgree(codec, r1, r2, key, n);
      PollIndependent(codec, Run(codec, r1, n), Run(codec, r2, n), key, schedule, i + 1);
    }
  }

  /** What a completion request returns for what its wait found: `resp.get("result", {})`,
      or `None` after the last check. */
  function CompletionResult(found: Option<Json>): (r: Json)
    ensures found.None? ==> r == JNull
    ensures found.Some? && Lookup(found.value, "result").Some? ==> r == Lookup(found.value, "result").value
    ensures found.Some? && Lookup(found.value, "result").None? ==> r == EmptyObject
  {
    match found
    case None => JNull
    case Some(e) => if Lookup(e, "result").Some? then Lookup(e, "result").value else EmptyObject
  }

  /** A call that returns a value or raises. */
  datatype Call = Returned(value: Json) | Raised

  /** What `sign_in` does with what its wait found: `None` after the last check, the
      user code of the entry, or an exception when the entry has none. */
  function SignInOutcome(found: Option<Json>): (c: Call)
    ensures found.None? ==> c == Returned(JNull)
    ensures found.Some? ==> (c.Raised? <==> UserCode(found.value).None?)
    ensures found.Some? && c.Returned? ==> Some(c.value) == UserCode(found.value)
  {
    match found
    case None => Returned(JNull)
    case Some(resp) => if UserCode(resp).Some? then Returned(UserCode(resp).value) else Raised
  }

  class CopilotLspClient {
    const codec: Codec
    var idCounter: int
    var pending: map<Key, Json>
    var status: Json
    var lastResponse: Json
    /** The messages printed from `window/logMessage` and `window/showMessageRequest`. */
    var logged: seq<Json>
    /** Everything written to the server's standard input. */
    var stdin: seq<byte>
    /** What the server wrote that the reader has not read yet. */
    var stdout: seq<byte>
    var readerAlive: bool
    var terminated: bool
    /** The messages sent, in order. */
    ghost var sent: seq<Json>
    /** The ids `_next_id` handed out, in order. */
    ghost var issued: seq<int>

    ghost predicate Valid()
      reads this
    {
      && idCounter >= 100
      && stdin == Wire(codec, sent)
      && ReaderValid()
      && (forall i, j :: 0 <= i < j < |issued| ==> issued[i] < issued[j])
      && (forall i :: 0 <= i < |issued| ==> 100 < issued[i] <= idCounter)
    }

    /** What the reader thread keeps true: every entry of `_pending` is filed under the
        message's own id. */
    ghost predicate ReaderValid()
      reads this
    {
      Correlated(pending)
    }

    /** The state the reader thread does not touch. */
    ghost function Outside(): (int, seq<int>, seq<byte>, seq<Json>, bool)
      reads this
    {
      (idCounter, issued, stdin, sent, terminated)
    }

    function Fields(): Session
      reads this
    {
      Session(pending, status, lastResponse, logged)
    }

    function ReaderState(): Reader
      reads this
    {
      Reader(stdout, readerAlive, Fields())
    }

    /** `__init__`: start the server (and sleep), set the counter to 100, empty the table,
        start the reader. */
    constructor (codec: Codec, serverOutput: seq<byte>)
      ensures Valid() && this.codec == codec
      ensures idCounter == 100 && ReaderState() == Reader(serverOutput, true, Initial)
      ensures stdin == [] && sent == [] && issued == []
      ensures !terminated
    {
      this.codec := codec;
      idCounter := 100;
      pending := map[];
      stdout := serverOutput;
      readerAlive := true;
      status := JNull;
      lastResponse := JNull;
      logged := [];
      stdin := [];
      terminated := false;
      sent := [];
      issued := [];
    }

    /** `_next_id`: ids 101, 102, ... in order, never 1 or 2. */
    method NextId() returns (id: int)
      requires Valid()
      modifies this
      ensures Valid()
      ensures id == old(idCounter) + 1 && idCounter == id && id > 100
      ensures id !in old(issued) && issued == old(issued) + [id]
      ensures ReaderState() == old(ReaderState()) && stdin == old(stdin) && sent == old(sent)
      ensures terminated == old(terminated)
    {
      idCounter := idCounter + 1;
      id := idCounter;
      issued := issued + [id];
    }

    /** `_send`: the header with the body's length, then the body. */
    method Send(m: Json)
      requires Valid()
      modifies this
      ensures Valid()
      ensures stdin == old(stdin) + Encode(codec, m) && sent == old(sent) + [m]
      ensures ReaderState() == old(ReaderState()) && idCounter == old(idCounter) && issued == old(issued)
      ensures terminated == old(terminated)
    {
      var data := codec.dumps(m);
      var header := Header(|data|);
      WireAppend(codec, sent, m);
      stdin := stdin + (Utf8(header) + Utf8(data));
      sent := sent + [m];
    }

    /** The body of the reader loop for one decoded message, field by field. */
    method Handle(resp: Json)
      requires ReaderValid() && readerAlive
      modifies this
      ensures ReaderValid()
      ensures (Fields(), readerAlive) == Dispatch(old(Fields()), resp)
      ensures stdout == old(stdout) && Outside() == old(Outside())
    {
      if !resp.JObj? {
        readerAlive := false;
        return;
      }
      if "id" in resp.fields {
        var k := KeyOf(resp.fields["id"]);
        if k.None? {
          readerAlive := false;
          return;
        }
        pending := pending[k.value := resp];
      }
      if IsLog(resp) {
        var text := LogText(resp);
        if text.None? {
          readerAlive := false;
          return;
        }
        logged := logged + [text.value];
      }
      if IsStatus(resp) {
        var params := Lookup(resp, "params");
        if params.None? {
          readerAlive := false;
          return;
        }
        status := params.value;
      }
      lastResponse := resp;
    }

    /** One iteration of `_read_responses`. */
    method ReadOne()
      requires ReaderValid()
      modifies this
      ensures ReaderValid()
      ensures ReaderState() == Step(codec, old(ReaderState()))
      ensures Outside() == old(Outside())
    {
      if !readerAlive {
        return;
      }
      var (ev, rest) := ReadFrame(codec, stdout);
      stdout := rest;
      match ev
      case EndOfStream =>
        readerAlive := false;
      case Skipped =>
      case Fault =>
        readerAlive := false;
      case Message(resp) =>
        Handle(resp);
    }

    /** `n` iterations of the reader thread. */
    method RunReader(n: nat)
      requires ReaderValid()
      modifies this
      ensures ReaderValid()
      ensures ReaderState() == Run(codec, old(ReaderState()), n)
      ensures Outside() == old(Outside())
    {
      var i := 0;
      while i < n
        invariant 0 <= i <= n
        invariant ReaderValid()
        invariant ReaderState() == Run(codec, old(ReaderState()), i)
        invariant Outside() == old(Outside())
      {
        RunSnoc(codec, old(ReaderState()), i);
        ReadOne();
        i := i + 1;
      }
    }

    /** One check of the waiting loop: the reader runs for a while, then
        `self._pending.get(key)` is checked for truth. */
    method Check(key: Key, schedule: seq<nat>, i: nat) returns (hit: bool)
      requires ReaderValid() && i < Checks
      modifies this
      ensures ReaderValid()
      ensures ReaderState() == Run(codec, old(ReaderState()), StepsAt(schedule, i))
      ensures hit <==> key in pending && Truthy(pending[key])
      ensures Outside() == old(Outside())
    {
      RunReader(StepsAt(schedule, i));
      hit := key in pending && Truthy(pending[key]);
    }

    /** The waiting loop shared by `sign_in` and the completion requests. */
    method Poll(key: Key, schedule: seq<nat>) returns (found: Option<Json>)
      requires ReaderValid()
      modifies this
      ensures ReaderValid()
      ensures var w := PollFrom(codec, old(ReaderState()), key, schedule, 0);
        ReaderState() == w.reader && found == w.found
      ensures found.Some? ==> IdKey(found.value) == Some(key)
      ensures Outside() == old(Outside())
    {
      ghost var w0 := PollFrom(codec, ReaderState(), key, schedule, 0);
      var i := 0;
      while i < Checks
        invariant 0 <= i <= Checks
        invariant ReaderValid() && PollFrom(codec, ReaderState(), key, schedule, i) == w0
        invariant Outside() == old(Outside())
      {
        var hit := Check(key, schedule, i);
        if hit {
          return Some(pending[key]);
        }
        i := i + 1;
      }
      return None;
    }

    /** `initialize`: the `initialize` request (id 1), a pause, the `initialized`
        notification. */
    method Initialize(pid: int, cwd: string)
      requires Valid()
      modifies this
      ensures Valid()
      ensures sent == old(sent) + [InitializeRequest(pid, cwd), InitializedNotification()]
      ensures ReaderState() == old(ReaderState()) && idCounter == old(idCounter) && issued == old(issued)
      ensures terminated == old(terminated)
    {
      Send(InitializeRequest(pid, cwd));
      Send(InitializedNotification());
    }

    /** `sign_in`: initialize, send `signIn` (id 2), wait for the entry under 2 and return
        its `result.userCode`, or `None` after the last check. */
    method SignIn(pid: int, cwd: string, schedule: seq<nat>) returns (outcome: Call)
      requires Valid()
      modifies this
      ensures Valid()
      ensures sent == old(sent) + [InitializeRequest(pid, cwd), InitializedNotification()] + [SignInRequest()]
      ensures var w := PollFrom(codec, old(ReaderState()), KInt(SignInId), schedule, 0);
        && ReaderState() == w.reader
        && outcome == SignInOutcome(w.found)
        && (w.found.Some? ==> IdKey(w.found.value) == Some(KInt(SignInId)))
      ensures idCounter == old(idCounter) && issued == old(issued) && terminated == old(terminated)
    {
      Initialize(pid, cwd);
      Send(SignInRequest());
      var found := Poll(KInt(SignInId), schedule);
      outcome := SignInOutcome(found);
    }

    /** `sign_out`: a `signOut` request under a fresh id; no wait. The source returns
        `None`; the model returns the id it used, so that callers can name it. */
    method SignOut() returns (id: int)
      requires Valid()
      modifies this
      ensures Valid()
      ensures id == old(idCounter) + 1 && id !in old(issued)
      ensures idCounter == id && issued == old(issued) + [id]
      ensures sent == old(sent) + [SignOutRequest(id)]
      ensures ReaderState() == old(ReaderState()) && terminated == old(terminated)
    {
      id := NextId();
      Send(SignOutRequest(id));
    }

    /** `status`: the last status the reader took, after `steps` reader iterations. */
    method Status(steps: nat) returns (st: Json)
      requires Valid()
      modifies this
      ensures Valid()
      ensures ReaderState() == Run(codec, old(ReaderState()), steps) && st == status
      ensures idCounter == old(idCounter) && sent == old(sent)
      ensures issued == old(issued) && terminated == old(terminated)
    {
      RunReader(steps);
      st := status;
    }

    method DidChangeConfiguration(settings: Json)
      requires Valid()
      modifies this
      ensures Valid()
      ensures sent == old(sent) + [Protocol.DidChangeConfiguration(settings)]
      ensures ReaderState() == old(ReaderState()) && idCounter == old(idCounter)
      ensures issued == old(issued) && terminated == old(terminated)
    {
      Send(Protocol.DidChangeConfiguration(settings));
    }

    method DidChangeWorkspaceFolders(added: Json, removed: Json)
      requires Valid()
      modifies this
      ensures Valid()
      ensures sent == old(sent) + [Protocol.DidChangeWorkspaceFolders(added, removed)]
      ensures ReaderState() == old(ReaderState()) && idCounter == old(idCounter)
      ensures issued == old(issued) && terminated == old(terminated)
    {
      Send(Protocol.DidChangeWorkspaceFolders(added, removed));
    }

    /** `did_open`, with the file's text read by the caller; the language and the version
        default to `"python"` and 1 as in the source. */
    method DidOpen(path: string, text: string, languageId: string := "python", version: int := 1)
      requires Valid()
      modifies this
      ensures Valid()
      ensures sent == old(sent) + [Protocol.DidOpen(path, languageId, version, text)]
      ensures ReaderState() == old(ReaderState()) && idCounter == old(idCounter)
      ensures issued == old(issued) && terminated == old(terminated)
    {
      Send(Protocol.DidOpen(path, languageId, version, text));
    }

    /** `did_change`; the version defaults to 2. */
    method DidChange(path: string, text: string, version: int := 2)
      requires Valid()
      modifies this
      ensures Valid()
      ensures sent == old(sent) + [Protocol.DidChange(path, text, version)]
      ensures ReaderState() == old(ReaderState()) && idCounter == old(idCounter)
      ensures issued == old(issued) && terminated == old(terminated)
    {
      Send(Protocol.DidChange(path, text, version));
    }

    method DidClose(path: string)
      requires Valid()
      modifies this
      ensures Valid()
      ensures sent == old(sent) + [Protocol.DidClose(path)]
      ensures ReaderState() == old(ReaderState()) && idCounter == old(idCounter)
      ensures issued == old(issued) && terminated == old(terminated)
    {
      Send(Protocol.DidClose(path));
    }

    method DidFocus(path: Option<string> := None)
      requires Valid()
      modifies this
      ensures Valid()
      ensures sent == old(sent) + [Protocol.DidFocus(path)]
      ensures ReaderState() == old(ReaderState()) && idCounter == old(idCounter)
      ensures issued == old(issued) && terminated == old(terminated)
    {
      Send(Protocol.DidFocus(path));
    }

    /** `inline_completion`: a request under a fresh id, then wait for that id only. The
        version, tab size and space indentation default to 1, 4 and true. */
    method InlineCompletion(path: string, line: int, character: int, schedule: seq<nat>,
                            version: int := 1, tabSize: int := 4, insertSpaces: bool := true)
      returns (result: Json)
      requires Valid()
      modifies this
      ensures Valid()
      ensures var id := old(idCounter) + 1;
        && id !in old(issued) && idCounter == id && issued == old(issued) + [id]
        && sent == old(sent) + [InlineCompletionRequest(id, path, line, character, version, tabSize, insertSpaces)]
        && var w := PollFrom(codec, old(ReaderState()), KInt(id), schedule, 0);
        && ReaderState() == w.reader
        && result == CompletionResult(w.found)
        && (w.found.Some? ==> IdKey(w.found.value) == Some(KInt(id)))
      ensures terminated == old(terminated)
    {
      var id := NextId();
      Send(InlineCompletionRequest(id, path, line, character, version, tabSize, insertSpaces));
      var found := Poll(KInt(id), schedule);
      result := CompletionResult(found);
    }

    /** `panel_completion`: as the inline request, with a partial-result token; the version
        defaults to 1. */
    method PanelCompletion(path: string, line: int, character: int, token: string, schedule: seq<nat>,
                           version: int := 1) returns (result: Json)
      requires Valid()
      modifies this
      ensures Valid()
      ensures var id := old(idCounter) + 1;
        && id !in old(issued) && idCounter == id && issued == old(issued) + [id]
        && sent == old(sent) + [PanelCompletionRequest(id, path, line, character, version, token)]
        && var w := PollFrom(codec, old(ReaderState()), KInt(id), schedule, 0);
        && ReaderState() == w.reader
        && result == CompletionResult(w.found)
        && (w.found.Some? ==> IdKey(w.found.value) == Some(KInt(id)))
      ensures terminated == old(terminated)
    {
      var id := NextId();
      Send(PanelCompletionRequest(id, path, line, character, version, token));
      var found := Poll(KInt(id), schedule);
      result := CompletionResult(found);
    }

    /** `execute_command`: a request under a fresh id; no wait. The source returns
        `None`; the model returns the id it used, so that callers can name it. */
    method ExecuteCommand(command: Json, arguments: Json := JNull) returns (id: int)
      requires Valid()
      modifies this
      ensures Valid()
      ensures id == old(idCounter) + 1 && id !in old(issued)
      ensures idCounter == id && issued == old(issued) + [id]
      ensures sent == old(sent) + [ExecuteCommandRequest(id, command, arguments)]
      ensures ReaderState() == old(ReaderState()) && terminated == old(terminated)
    {
      id := NextId();
      Send(ExecuteCommandRequest(id, command, arguments));
    }

    /** `shutdown`: terminate the server process. */
    method Shutdown()
      requires Valid()
      modifies this
      ensures Valid() && terminated
      ensures ReaderState() == old(ReaderState()) && sent == old(sent) && idCounter == old(idCounter)
      ensures issued == old(issued)
    {
      terminated := true;
    }
  }
}
