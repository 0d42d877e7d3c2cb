/** What the client's reader thread does with each decoded message (`_read_responses`,
    after `json.loads`), and the reader loop as a sequence of steps over the bytes the
    server writes. */
module ReaderThread {
  import opened Wrappers
  import opened Text
  import opened JsonData
  import opened Framing
  import opened Protocol

  /** The fields the reader updates: `_pending`, `_status`, `_last_response`, and the
      log lines it prints. */
  datatype Session = Session(pending: map<Key, Json>, status: Json, last: Json, logged: seq<Json>)

  /** `_pending = {}`, `_status = None`, `_last_response = None`. */
  const Initial: Session := Session(map[], JNull, JNull, [])

  /** `m.get(key)` on a dictionary. */
  function Get(m: map<Key, Json>, k: Key): Option<Json> {
    if k in m then Some(m[k]) else None
  }

  predicate IsLog(resp: Json) {
    HasMethod(resp, "window/logMessage") || HasMethod(resp, "window/showMessageRequest")
  }

  predicate IsStatus(resp: Json) {
    HasMethod(resp, "copilot/didChangeStatus") || HasMethod(resp, "copilot/status")
  }

  /** `resp['params']['message']`; `None` where Python raises. */
  function LogText(resp: Json): Option<Json> {
    match Lookup(resp, "params")
    case None => None
    case Some(p) => Lookup(p, "message")
  }

  /** Every entry is filed under its own `id`. */
  predicate Correlated(pending: map<Key, Json>) {
    forall k :: k in pending ==> IdKey(pending[k]) == Some(k)
  }

  /** A message the reader handles without raising. */
  predicate Handled(resp: Json) {
    && resp.JObj?
    && ("id" in resp.fields ==> IdKey(resp).Some?)
    && (IsLog(resp) ==> LogText(resp).Some?)
    && (IsStatus(resp) ==> Lookup(resp, "params").Some?)
  }

  /** The body of the reader loop for one decoded message, in the order of the source:
      file it under its id, print a log message, take a status, remember it as the last
      response. An exception (a message that is not an object, an unhashable id, a
      missing `params` or `message`) ends the thread, keeping the updates already made.
      Returns the new fields and whether the thread goes on. */
  function Dispatch(s: Session, resp: Json): (r: (Session, bool))
    ensures r.1 <==> Handled(resp)
    ensures IdKey(resp).Some? ==> r.0.pending == s.pending[IdKey(resp).value := resp]
    ensures IdKey(resp).None? ==> r.0.pending == s.pending
    ensures r.0.status != s.status ==> IsStatus(resp) && Lookup(resp, "params") == Some(r.0.status)
    ensures r.1 && IsStatus(resp) ==> Lookup(resp, "params") == Some(r.0.status)
    ensures r.0.last == if r.1 then resp else s.last
    ensures r.1 ==> r.0.logged == s.logged + (if IsLog(resp) then [LogText(resp).value] else [])
    ensures Correlated(s.pending) ==> Correlated(r.0.pending)
  {
    if !resp.JObj? then (s, false)
    else if "id" in resp.fields && IdKey(resp).None? then (s, false)
    else
      var s1 := if IdKey(resp).Some? then s.(pending := s.pending[IdKey(resp).value := resp]) else s;
      if IsLog(resp) && LogText(resp).None? then (s1, false)
      else
        var s2 := if IsLog(resp) then s1.(logged := s1.logged + [LogText(resp).value]) else s1;
        if IsStatus(resp) && Lookup(resp, "params").None? then (s2, false)
        else
          var s3 := if IsStatus(resp) then s2.(status := Lookup(resp, "params").value) else s2;
          (s3.(last := resp), true)
  }

  // ------------------------------------------------------------ the reader loop

  /** The reader thread: the server bytes not yet read, whether the thread is still
      running, and the fields it updates. */
  datatype Reader = Reader(rest: seq<byte>, alive: bool, session: Session)

  /** One iteration of `while True:`. A stopped thread does nothing. */
  function Step(codec: Codec, r: Reader): (r': Reader)
    ensures !r.alive ==> r' == r
    ensures r.alive && r.rest == [] ==> r' == r.(alive := false)
    ensures |r'.rest| <= |r.rest|
  {
    if !r.alive then r
    else
      var (ev, rest) := ReadFrame(codec, r.rest);
      match ev
      case EndOfStream => Reader(rest, false, r.session)
      case Skipped => Reader(rest, true, r.session)
      case Fault => Reader(rest, false, r.session)
      case Message(m) =>
        var (s, ok) := Dispatch(r.session, m);
        Reader(rest, ok, s)
  }

  /** `n` iterations of the reader loop. */
  function Run(codec: Codec, r: Reader, n: nat): Reader
    decreases n
  {
    if n == 0 then r else Run(codec, Step(codec, r), n - 1)
  }

  /** One more iteration after `n`. */
  lemma {:induction false} RunSnoc(codec: Codec, r: Reader, n: nat)
    ensures Run(codec, r, n + 1) == Step(codec, Run(codec, r, n))
    decreases n
  {
    if n > 0 {
      RunSnoc(codec, Step(codec, r), n - 1);
    }
  }

  lemma {:induction false} RunCorrelated(codec: Codec, r: Reader, n: nat)
    requires Correlated(r.session.pending)
    ensures Correlated(Run(codec, r, n).session.pending)
    decreases n
  {
    if n > 0 {
      RunCorrelated(codec, Step(codec, r), n - 1);
    }
  }

  lemma {:induction false} RunStopped(codec: Codec, r: Reader, n: nat)
    requires !r.alive
    ensures Run(codec, r, n) == r
  {
    if n > 0 {
      RunStopped(codec, r, n - 1);
    }
  }

  /** A reader that is running and has nothing left to read stops at its next step,
      with its fields as they are. */
  lemma EndOfInput(codec: Codec, s: Session)
    ensures Step(codec, Reader([], true, s)) == Reader([], false, s)
  {
  }

  // ------------------------------------------------ delivering a list of messages

  /** Dispatching `ms` in order until one raises; whether all were handled. */
  function Deliver(s: Session, ms: seq<Json>): (Session, bool)
    decreases |ms|
  {
    if ms == [] then (s, true)
    else
      var d := Dispatch(s, ms[0]);
      if d.1 then Deliver(d.0, ms[1..]) else d
  }

  /** The last message of `ms` filed under `k`, if any. */
  function LastWith(ms: seq<Json>, k: Key): (r: Option<Json>)
    ensures r.Some? ==> r.value in ms && IdKey(r.value) == Some(k)
  {
    if ms == [] then None
    else if IdKey(ms[|ms| - 1]) == Some(k) then Some(ms[|ms| - 1])
    else LastWith(ms[..|ms| - 1], k)
  }

  lemma {:induction false} LastWithCons(m: Json, ms: seq<Json>, k: Key)
    ensures LastWith([m] + ms, k) == if LastWith(ms, k).Some? then LastWith(ms, k)
                                     else if IdKey(m) == Some(k) then Some(m) else None
  {
    if ms != [] {
      assert ([m] + ms)[..|[m] + ms| - 1] == [m] + ms[..|ms| - 1];
      LastWithCons(m, ms[..|ms| - 1], k);
    } else {
      assert [m] + ms == [m];
    }
  }

  /** Responses may arrive in any order: once they are all handled, each key holds the
      last message that carried it, and keys no message carried are as they were. */
  lemma {:induction false} DeliverLastWins(s: Session, ms: seq<Json>, k: Key)
    requires Deliver(s, ms).1
    decreases |ms|
    ensures Get(Deliver(s, ms).0.pending, k) == if LastWith(ms, k).Some? then LastWith(ms, k) else Get(s.pending, k)
  {
    if ms != [] {
      var d := Dispatch(s, ms[0]);
      DeliverLastWins(d.0, ms[1..], k);
      LastWithCons(ms[0], ms[1..], k);
      assert [ms[0]] + ms[1..] == ms;
    }
  }

  lemma {:induction false} DeliverCorrelated(s: Session, ms: seq<Json>)
    requires Correlated(s.pending)
    decreases |ms|
    ensures Correlated(Deliver(s, ms).0.pending)
  {
    if ms != [] {
      var d := Dispatch(s, ms[0]);
      if d.1 {
        DeliverCorrelated(d.0, ms[1..]);
      }
    }
  }

  /** The stream as the reader sees it before each frame: reading a frame from `bs[i]`
      gives the message `ms[i]` and leaves `bs[i + 1]`. */
  predicate Chain(codec: Codec, bs: seq<seq<byte>>, ms: seq<Json>) {
    |bs| == |ms| + 1 && forall i :: 0 <= i < |ms| ==> ReadFrame(codec, bs[i]) == (Message(ms[i]), bs[i + 1])
  }

  /** The stream before each frame of `_send`-framed messages. */
  function WireStates(codec: Codec, ms: seq<Json>, rest: seq<byte>): (bs: seq<seq<byte>>)
    ensures |bs| == |ms| + 1 && bs[0] == Wire(codec, ms) + rest && bs[|ms|] == rest
  {
    assert ms[0..] == ms;
    seq(|ms| + 1, i requires 0 <= i <= |ms| => Wire(codec, ms[i..]) + rest)
  }

  lemma WireChain(codec: Codec, ms: seq<Json>, rest: seq<byte>)
    requires ValidCodec(codec)
    ensures Chain(codec, WireStates(codec, ms, rest), ms)
  {
    var bs := WireStates(codec, ms, rest);
    forall i | 0 <= i < |ms| ensures ReadFrame(codec, bs[i]) == (Message(ms[i]), bs[i + 1]) {
      WireFrame(codec, ms, rest, i);
    }
  }

  lemma WireFrame(codec: Codec, ms: seq<Json>, rest: seq<byte>, i: nat)
    requires ValidCodec(codec) && i < |ms|
    ensures ReadFrame(codec, Wire(codec, ms[i..]) + rest) == (Message(ms[i]), Wire(codec, ms[i + 1..]) + rest)
  {
    var tl := ms[i..];
    assert tl[1..] == ms[i + 1..];
    WireCons(codec, tl, rest);
    ReadFrameRoundTrip(codec, ms[i], Wire(codec, ms[i + 1..]) + rest);
  }

  /** From the `i`-th frame on, the reader delivers the remaining messages. */
  lemma {:induction false} RunChain(codec: Codec, bs: seq<seq<byte>>, ms: seq<Json>, s: Session, i: nat)
    requires Chain(codec, bs, ms) && i <= |ms|
    ensures DeliveredBy(Run(codec, Reader(bs[i], true, s), |ms| - i), s, ms[i..], bs[|ms|])
    decreases |ms| - i
  {
    if i < |ms| {
      var d := Dispatch(s, ms[i]);
      var r0, r1 := Reader(bs[i], true, s), Reader(bs[i + 1], d.1, d.0);
      StepMessage(codec, r0, ms[i], bs[i + 1]);
      if d.1 {
        RunChain(codec, bs, ms, d.0, i + 1);
      } else {
        RunStopped(codec, r1, |ms| - i - 1);
      }
      assert ms[i..][1..] == ms[i + 1..];
      DeliverCons(Run(codec, r0, |ms| - i), Run(codec, r1, |ms| - i - 1), s, ms[i..], bs[|ms|]);
    } else {
      assert ms[i..] == [];
    }
  }

  /** After reading frames for `ms` from a state with fields `s`, the fields are those
      of delivering `ms`; the reader runs on exactly when all were handled, and then it
      has `rest` left to read. */
  predicate DeliveredBy(r: Reader, s: Session, ms: seq<Json>, rest: seq<byte>) {
    && r.session == Deliver(s, ms).0
    && r.alive == Deliver(s, ms).1
    && (r.alive ==> r.rest == rest)
  }

  lemma DeliverCons(r: Reader, r1: Reader, s: Session, ms: seq<Json>, rest: seq<byte>)
    requires ms != [] && r == r1
    requires Dispatch(s, ms[0]).1 ==> DeliveredBy(r1, Dispatch(s, ms[0]).0, ms[1..], rest)
    requires !Dispatch(s, ms[0]).1 ==> r1.session == Dispatch(s, ms[0]).0 && !r1.alive
    ensures DeliveredBy(r, s, ms, rest)
  {
  }

  /** Reading what the server wrote with `_send`'s framing delivers those messages in
      order: after one step per frame the fields are those of `Deliver`, and the reader
      is still running exactly when every message was handled. */
  lemma RunWire(codec: Codec, ms: seq<Json>, rest: seq<byte>, s: Session)
    requires ValidCodec(codec)
    ensures DeliveredBy(Run(codec, Reader(Wire(codec, ms) + rest, true, s), |ms|), s, ms, rest)
  {
    WireChain(codec, ms, rest);
    RunChain(codec, WireStates(codec, ms, rest), ms, s, 0);
    assert ms[0..] == ms;
  }

  lemma StepMessage(codec: Codec, r: Reader, m: Json, tail: seq<byte>)
    requires r.alive && ReadFrame(codec, r.rest) == (Message(m), tail)
    ensures Step(codec, r) == Reader(tail, Dispatch(r.session, m).1, Dispatch(r.session, m).0)
  {
  }

  // ------------------------------------------------------- other keys do not matter

  /** Two readers that read the same bytes and agree on the entry under `k`. */
  predicate AgreeOn(r1: Reader, r2: Reader, k: Key) {
    r1.rest == r2.rest && r1.alive == r2.alive && Get(r1.session.pending, k) == Get(r2.session.pending, k)
  }

  /** What the reader files under `k` depends only on the stream and the entry already
      under `k`: the other entries never affect it. */
  lemma {:induction false} RunAgree(codec: Codec, r1: Reader, r2: Reader, k: Key, n: nat)
    requires AgreeOn(r1, r2, k)
    ensures AgreeOn(Run(codec, r1, n), Run(codec, r2, n), k)
    decreases n
  {
    if n > 0 {
      StepAgree(codec, r1, r2, k);
      RunAgree(codec, Step(codec, r1), Step(codec, r2), k, n - 1);
    }
  }

  lemma StepAgree(codec: Codec, r1: Reader, r2: Reader, k: Key)
    requires AgreeOn(r1, r2, k)
    ensures AgreeOn(Step(codec, r1), Step(codec, r2), k)
  {
    if r1.alive {
      var (ev, rest) := ReadFrame(codec, r1.rest);
      if ev.Message? {
        DispatchAgree(r1.session, r2.session, ev.msg, k);
      }
    }
  }

  lemma DispatchAgree(s1: Session, s2: Session, resp: Json, k: Key)
    requires Get(s1.pending, k) == Get(s2.pending, k)
    ensures Dispatch(s1, resp).1 == Dispatch(s2, resp).1
    ensures Get(Dispatch(s1, resp).0.pending, k) == Get(Dispatch(s2, resp).0.pending, k)
  {
  }
}
