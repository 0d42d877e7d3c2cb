/** `copilot_login`: the one-shot handshake. It writes `initialize` (id 1); on a
    response with id 1 it writes `initialized` and then `signIn` (id 2); on a response
    with id 2 it prints the user code, terminates the server and stops. The server's
    output is given in advance as bytes. */
module Login {
  import opened Wrappers
  import opened Text
  import opened JsonData
  import opened Framing
  import opened Protocol

  /** How the reading thread ends: with the user code, at the end of the stream, or
      on an exception. */
  datatype LoginOutcome = CodeIssued(code: Json) | StreamEnded | ReaderFailed

  /** What the loop does with one decoded message. */
  datatype Reaction = Ignore | Reply | Finish(code: Json) | Crash

  /** `resp.get("id") == n`; Python's `True == 1` holds here too. */
  predicate IdEquals(resp: Json, n: int)
    requires resp.JObj?
  {
    "id" in resp.fields && KeyOf(resp.fields["id"]) == Some(KInt(n))
  }

  /** The branches of the loop body. A message that is not an object makes `resp.get`
      raise; an id-2 message without `result.userCode` makes the lookup raise. */
  function React(resp: Json): (r: Reaction)
    ensures r == Crash <==> !resp.JObj? || (IdEquals(resp, 2) && UserCode(resp).None?)
    ensures r == Reply <==> resp.JObj? && IdEquals(resp, 1)
    ensures r.Finish? <==> resp.JObj? && IdEquals(resp, 2) && UserCode(resp).Some?
    ensures r.Finish? ==> Some(r.code) == UserCode(resp)
  {
    if !resp.JObj? then Crash
    else if IdEquals(resp, 1) then Reply
    else if IdEquals(resp, 2) then
      match UserCode(resp)
      case None => Crash
      case Some(code) => Finish(code)
    else Ignore
  }

  /** What the loop writes in answer to an id-1 response. */
  function Answer(): seq<Json> {
    [InitializedNotification(), SignInRequest()]
  }

  /** The loop over decoded messages: what it writes after `initialize`, and how it
      ends. `faulted` says whether the stream ends in an exception rather than at the
      end of the input. */
  function Script(msgs: seq<Json>, faulted: bool): (r: (seq<Json>, LoginOutcome))
    ensures msgs == [] ==> r == ([], if faulted then ReaderFailed else StreamEnded)
    decreases |msgs|
  {
    if msgs == [] then ([], if faulted then ReaderFailed else StreamEnded)
    else
      match React(msgs[0])
      case Ignore => Script(msgs[1..], faulted)
      case Reply =>
        var t := Script(msgs[1..], faulted);
        (Answer() + t.0, t.1)
      case Finish(code) => ([], CodeIssued(code))
      case Crash => ([], ReaderFailed)
  }

  /** The loop over the raw bytes, one frame per iteration, as `read_responses` reads
      them, after `acc` has been written: everything written after `initialize`, and
      how the loop ends. */
  function Handshake(codec: Codec, s: seq<byte>, acc: seq<Json>): (r: (seq<Json>, LoginOutcome))
    ensures s == [] ==> r == (acc, StreamEnded)
    decreases |s|
  {
    var (ev, rest) := ReadFrame(codec, s);
    match ev
    case EndOfStream => (acc, StreamEnded)
    case Skipped => Handshake(codec, rest, acc)
    case Fault => (acc, ReaderFailed)
    case Message(m) =>
      match React(m)
      case Ignore => Handshake(codec, rest, acc)
      case Reply => Handshake(codec, rest, acc + Answer())
      case Finish(code) => (acc, CodeIssued(code))
      case Crash => (acc, ReaderFailed)
  }

  /** Sending the answer to an id-1 response writes its two frames, in order. */
  lemma WireAnswer(codec: Codec, w: seq<Json>)
    ensures Wire(codec, w + Answer())
      == Wire(codec, w) + Encode(codec, InitializedNotification()) + Encode(codec, SignInRequest())
  {
    WireAppend(codec, w, InitializedNotification());
    WireAppend(codec, w + [InitializedNotification()], SignInRequest());
    assert w + Answer() == w + [InitializedNotification()] + [SignInRequest()];
  }

  /** The bytes after the reply step are those of the longer transcript. */
  lemma AnswerWritten(codec: Codec, first: seq<byte>, w: seq<Json>)
    ensures first + Wire(codec, w) + Encode(codec, InitializedNotification()) + Encode(codec, SignInRequest())
      == first + Wire(codec, w + Answer())
  {
    WireAnswer(codec, w);
  }

  /** `copilot_login` with the reading thread run to its end: the bytes written to the
      server, how the thread ended, and whether the server was terminated. The first
      frame is `initialize`; the rest are the frames of what the loop writes. */
  method CopilotLogin(codec: Codec, pid: int, cwd: string, serverOutput: seq<byte>)
    returns (stdin: seq<byte>, outcome: LoginOutcome, terminated: bool)
    ensures stdin == Encode(codec, InitializeRequest(pid, cwd)) + Wire(codec, Handshake(codec, serverOutput, []).0)
    ensures outcome == Handshake(codec, serverOutput, []).1
    ensures terminated <==> outcome.CodeIssued?
  {
    var first := Encode(codec, InitializeRequest(pid, cwd));
    ghost var written: seq<Json> := [];
    stdin := first;
    var rest := serverOutput;
    while true
      invariant stdin == first + Wire(codec, written)
      invariant Handshake(codec, rest, written) == Handshake(codec, serverOutput, [])
      decreases |rest|
    {
      var (ev, next) := ReadFrame(codec, rest);
      match ev
      case EndOfStream =>
        return stdin, StreamEnded, false;
      case Fault =>
        return stdin, ReaderFailed, false;
      case Skipped =>
        rest := next;
      case Message(resp) =>
        match React(resp)
        case Crash =>
          return stdin, ReaderFailed, false;
        case Finish(code) =>
          return stdin, CodeIssued(code), true;
        case Ignore =>
          rest := next;
        case Reply =>
          stdin := stdin + Encode(codec, InitializedNotification()) + Encode(codec, SignInRequest());
          AnswerWritten(codec, first, written);
          written := written + Answer();
          rest := next;
    }
  }

  /** One message, then the rest. */
  lemma ScriptCons(m: Json, msgs: seq<Json>, faulted: bool)
    ensures var t := Script(msgs, faulted);
      Script([m] + msgs, faulted) == match React(m)
        case Ignore => t
        case Reply => (Answer() + t.0, t.1)
        case Finish(code) => ([], CodeIssued(code))
        case Crash => ([], ReaderFailed)
  {
    assert ([m] + msgs)[0] == m && ([m] + msgs)[1..] == msgs;
  }

  /** The byte-level loop is the message-level loop run on what the frames decode to. */
  lemma {:induction false} HandshakeScript(codec: Codec, s: seq<byte>, acc: seq<Json>)
    ensures var d := Decode(codec, s);
      Handshake(codec, s, acc) == (acc + Script(d.msgs, d.faulted).0, Script(d.msgs, d.faulted).1)
    decreases |s|, 2
  {
    var (ev, rest) := ReadFrame(codec, s);
    match ev
    case EndOfStream =>
      AppendNil(acc);
    case Fault =>
      AppendNil(acc);
    case Skipped =>
      HandshakeScript(codec, rest, acc);
    case Message(m) =>
      match React(m)
      case Ignore => IgnoredStep(codec, s, acc, m, rest);
      case Reply => ReplyStep(codec, s, acc, m, rest);
      case Finish(_) => StopStep(codec, s, acc, m, rest);
      case Crash => StopStep(codec, s, acc, m, rest);
  }

  /** `HandshakeScript` for a frame holding a message the loop ignores. */
  lemma {:induction false} IgnoredStep(codec: Codec, s: seq<byte>, acc: seq<Json>, m: Json, rest: seq<byte>)
    requires ReadFrame(codec, s) == (Message(m), rest) && React(m) == Ignore
    ensures var d := Decode(codec, s);
      Handshake(codec, s, acc) == (acc + Script(d.msgs, d.faulted).0, Script(d.msgs, d.faulted).1)
    decreases |s|, 1
  {
    var d := Decode(codec, rest);
    DecodeMessage(codec, s, m, rest);
    ScriptCons(m, d.msgs, d.faulted);
    HandshakeScript(codec, rest, acc);
  }

  /** `HandshakeScript` for a frame holding the response with id 1. */
  lemma {:induction false} ReplyStep(codec: Codec, s: seq<byte>, acc: seq<Json>, m: Json, rest: seq<byte>)
    requires ReadFrame(codec, s) == (Message(m), rest) && React(m) == Reply
    ensures var d := Decode(codec, s);
      Handshake(codec, s, acc) == (acc + Script(d.msgs, d.faulted).0, Script(d.msgs, d.faulted).1)
    decreases |s|, 1
  {
    var d := Decode(codec, rest);
    DecodeMessage(codec, s, m, rest);
    ScriptCons(m, d.msgs, d.faulted);
    HandshakeScript(codec, rest, acc + Answer());
    Associative(acc, Answer(), Script(d.msgs, d.faulted).0);
  }

  /** `HandshakeScript` for a frame holding a message that ends the loop. */
  lemma StopStep(codec: Codec, s: seq<byte>, acc: seq<Json>, m: Json, rest: seq<byte>)
    requires ReadFrame(codec, s) == (Message(m), rest) && (React(m).Finish? || React(m) == Crash)
    ensures var d := Decode(codec, s);
      Handshake(codec, s, acc) == (acc + Script(d.msgs, d.faulted).0, Script(d.msgs, d.faulted).1)
  {
    var d := Decode(codec, rest);
    DecodeMessage(codec, s, m, rest);
    ScriptCons(m, d.msgs, d.faulted);
    AppendNil(acc);
  }

  /** A reaction that ends the loop. */
  predicate Stops(r: Reaction) {
    r.Finish? || r == Crash
  }

  /** Where the loop stops: the first message that ends it, or the end of the list. */
  function StopIndex(msgs: seq<Json>): (k: nat)
    ensures k <= |msgs|
    ensures forall j :: 0 <= j < k ==> !Stops(React(msgs[j]))
    ensures k < |msgs| ==> Stops(React(msgs[k]))
    decreases |msgs|
  {
    if msgs == [] || Stops(React(msgs[0])) then 0 else 1 + StopIndex(msgs[1..])
  }

  /** How many of the first `n` messages are responses with id 1. */
  function RepliesIn(msgs: seq<Json>, n: nat): nat
    requires n <= |msgs|
    decreases n
  {
    if n == 0 then 0 else (if React(msgs[0]) == Reply then 1 else 0) + RepliesIn(msgs[1..], n - 1)
  }

  /** What the loop writes after `initialize` is `initialized`, `signIn`, `initialized`,
      `signIn`, ...: one whole pair for each response with id 1 read before the loop
      stops, and nothing else. */
  lemma {:induction false} ScriptWritesPairs(msgs: seq<Json>, faulted: bool)
    ensures var w := Script(msgs, faulted).0;
      && |w| == 2 * RepliesIn(msgs, StopIndex(msgs))
      && forall i :: 0 <= i < |w| ==> w[i] == Answer()[i % 2]
    decreases |msgs|
  {
    if msgs != [] && React(msgs[0]) == Ignore {
      ScriptWritesPairs(msgs[1..], faulted);
    } else if msgs != [] && React(msgs[0]) == Reply {
      var t := Script(msgs[1..], faulted).0;
      ScriptWritesPairs(msgs[1..], faulted);
      var w := Answer() + t;
      forall i | 0 <= i < |w| ensures w[i] == Answer()[i % 2] {
        if i >= 2 {
          assert w[i] == t[i - 2];
          assert (i - 2) % 2 == i % 2;
        }
      }
    }
  }

  /** A message the loop ignores can be dropped from anywhere in the stream. */
  lemma {:induction false} IgnoredMessage(pre: seq<Json>, m: Json, post: seq<Json>, faulted: bool)
    requires React(m) == Ignore
    ensures Script(pre + [m] + post, faulted) == Script(pre + post, faulted)
    decreases |pre|
  {
    if pre == [] {
      assert (pre + [m] + post)[0] == m && (pre + [m] + post)[1..] == post;
      assert pre + post == post;
    } else {
      assert (pre + [m] + post)[0] == pre[0] && (pre + [m] + post)[1..] == pre[1..] + [m] + post;
      assert (pre + post)[0] == pre[0] && (pre + post)[1..] == pre[1..] + post;
      IgnoredMessage(pre[1..], m, post, faulted);
    }
  }

  /** Once the user code has been printed the loop has stopped: nothing the server
      sends afterwards, and no later exception, changes the result. */
  lemma {:induction false} NothingAfterCode(msgs: seq<Json>, faulted: bool, more: seq<Json>, faulted2: bool)
    requires Script(msgs, faulted).1.CodeIssued?
    ensures Script(msgs + more, faulted2) == Script(msgs, faulted)
    decreases |msgs|
  {
    assert (msgs + more)[0] == msgs[0] && (msgs + more)[1..] == msgs[1..] + more;
    if React(msgs[0]) == Ignore || React(msgs[0]) == Reply {
      NothingAfterCode(msgs[1..], faulted, more, faulted2);
    }
  }

  /** The loop issues the code of the first message with id 2 and a user code, provided
      nothing before it ended the loop. */
  lemma {:induction false} CodeFromFirstStop(msgs: seq<Json>, faulted: bool, i: nat)
    requires i < |msgs| && React(msgs[i]).Finish?
    requires forall j :: 0 <= j < i ==> !Stops(React(msgs[j]))
    ensures Script(msgs, faulted).1 == CodeIssued(React(msgs[i]).code)
    decreases i
  {
    if i > 0 {
      assert !Stops(React(msgs[0]));
      forall j | 0 <= j < i - 1 ensures !Stops(React(msgs[1..][j])) {
        assert msgs[1..][j] == msgs[j + 1];
      }
      CodeFromFirstStop(msgs[1..], faulted, i - 1);
    }
  }

  /** Conversely, a code is issued only from such a message. */
  lemma {:induction false} CodeOnlyFromStop(msgs: seq<Json>, faulted: bool)
    requires Script(msgs, faulted).1.CodeIssued?
    ensures exists i :: (0 <= i < |msgs| && React(msgs[i]) == Finish(Script(msgs, faulted).1.code)
      && forall j :: 0 <= j < i ==> !Stops(React(msgs[j])))
    decreases |msgs|
  {
    var code := Script(msgs, faulted).1.code;
    if React(msgs[0]).Finish? {
      assert React(msgs[0]) == Finish(code);
    } else {
      CodeOnlyFromStop(msgs[1..], faulted);
      var i :| 0 <= i < |msgs[1..]| && React(msgs[1..][i]) == Finish(code)
        && forall j :: 0 <= j < i ==> !Stops(React(msgs[1..][j]));
      forall j | 0 <= j < i + 1 ensures !Stops(React(msgs[j])) {
        if j > 0 {
          assert msgs[j] == msgs[1..][j - 1];
        }
      }
      assert React(msgs[i + 1]) == Finish(code);
    }
  }

  /** The server sees `initialize` first and then exactly what the loop wrote, with
      nothing lost or garbled. */
  lemma TranscriptDecodes(codec: Codec, init: Json, written: seq<Json>)
    requires ValidCodec(codec)
    ensures Decode(codec, Encode(codec, init) + Wire(codec, written)) == Decoded([init] + written, false)
  {
    var ms := [init] + written;
    WireFront(codec, init, written);
    DecodeWire(codec, ms, []);
    AppendNil(Wire(codec, ms));
    AppendNil(ms);
  }

  /** The exchange the login expects, as messages: a reply to id 1 and then one to id 2
      with a user code make the loop write one pair and issue that code. */
  lemma ScriptHappyPath(r1: Json, r2: Json)
    requires r1.JObj? && IdEquals(r1, 1)
    requires r2.JObj? && IdEquals(r2, 2) && UserCode(r2).Some?
    ensures Script([r1, r2], false) == (Answer(), CodeIssued(UserCode(r2).value))
  {
    assert [r1, r2][0] == r1 && [r1, r2][1..] == [r2];
    assert [r2][0] == r2;
    assert Answer() + [] == Answer();
  }

  /** The same exchange on the wire: the server's two framed responses. */
  lemma HappyPath(codec: Codec, r1: Json, r2: Json)
    requires ValidCodec(codec)
    requires r1.JObj? && IdEquals(r1, 1)
    requires r2.JObj? && IdEquals(r2, 2) && UserCode(r2).Some?
    ensures Handshake(codec, Wire(codec, [r1, r2]), []) == (Answer(), CodeIssued(UserCode(r2).value))
  {
    var replies := [r1, r2];
    var s := Wire(codec, replies);
    DecodeWire(codec, replies, []);
    assert s + [] == s;
    assert replies + [] == replies;
    HandshakeScript(codec, s, []);
    ScriptHappyPath(r1, r2);
    assert [] + Answer() == Answer();
  }
}
