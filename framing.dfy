/** The Content-Length framing of the Language Server Protocol's base protocol, as the
    client writes it (`_send`) and as its reader thread decodes it (one iteration of
    `_read_responses` up to `json.loads`). */
module Framing {
  import opened Wrappers
  import opened Text
  import opened JsonData

  const HeaderName: string := "Content-Length:"
  /** `b"Content-Length:"`, the prefix the reader tests each line for. */
  const HeaderBytes: seq<byte> := AsciiBytes(HeaderName)
  const NewLine: byte := 10
  const Colon: byte := 58

  /** The header `_send` puts before a body of `n` characters. */
  function Header(n: nat): string {
    HeaderName + " " + Decimal(n) + "\r\n\r\n"
  }

  /** `header.encode() + data.encode()`: the bytes one `_send` writes for a serialized body. */
  function Frame(data: string): seq<byte> {
    Utf8(Header(|data|)) + Utf8(data)
  }

  /** The frame `_send(msg)` writes. */
  function Encode(codec: Codec, m: Json): seq<byte> {
    Frame(codec.dumps(m))
  }

  /** The bytes written by sending `ms` one after the other. */
  function Wire(codec: Codec, ms: seq<Json>): seq<byte> {
    if ms == [] then [] else Encode(codec, ms[0]) + Wire(codec, ms[1..])
  }

  lemma {:induction false} WireAppend(codec: Codec, ms: seq<Json>, m: Json)
    ensures Wire(codec, ms + [m]) == Wire(codec, ms) + Encode(codec, m)
  {
    if ms != [] {
      assert (ms + [m])[1..] == ms[1..] + [m];
      WireAppend(codec, ms[1..], m);
    } else {
      assert ms + [m] == [m];
    }
  }

  lemma HeaderAscii(n: nat)
    ensures AllAscii(Header(n))
  {
    var d := Decimal(n);
    assert forall i :: 0 <= i < |d| ==> IsDigit(d[i]);
  }

  /** The declared Content-Length is the byte length of the body: `json.dumps` writes
      ASCII, so counting characters counts bytes. */
  lemma DeclaredLengthIsByteLength(codec: Codec, m: Json)
    requires ValidCodec(codec)
    ensures Encode(codec, m) == Utf8(Header(|Utf8(codec.dumps(m))|)) + Utf8(codec.dumps(m))
  {
    Utf8Ascii(codec.dumps(m));
  }

  /** For a body with a non-ASCII character the header would declare fewer bytes than
      are written; this is why the ASCII output of the serializer matters. */
  lemma NonAsciiBodyUnderDeclared(data: string)
    requires !AllAscii(data)
    ensures |data| < |Utf8(data)|
  {
    Utf8LengthExact(data);
  }

  // ------------------------------------------------------------------ reading

  /** The length of what `readline()` returns: up to and including the first newline,
      or everything left. */
  function LineLength(s: seq<byte>): (k: nat)
    ensures k <= |s|
    ensures s != [] ==> k >= 1
  {
    if s == [] then 0 else if s[0] == NewLine then 1 else 1 + LineLength(s[1..])
  }

  /** The bytes before the first `b` (all of them when there is none). */
  function UpTo(s: seq<byte>, b: byte): (r: seq<byte>)
    ensures |r| <= |s| && r == s[..|r|]
    ensures b !in r
  {
    if s == [] || s[0] == b then [] else [s[0]] + UpTo(s[1..], b)
  }

  /** `int(line.decode().split(":")[1].strip())` on a line that starts with the header
      name. `None` where Python raises: a byte of the line is not ASCII (the model's
      stand-in for a failed `decode()`), or the field is not an integer. */
  function ContentLength(line: seq<byte>): (r: Option<int>)
    requires |line| >= |HeaderBytes|
    ensures r.Some? ==> forall i :: 0 <= i < |line| ==> line[i] < 128
  {
    if forall i :: 0 <= i < |line| ==> line[i] < 128 then
      ParseInt(AsciiText(UpTo(line[|HeaderBytes|..], Colon)))
    else None
  }

  /** The lengths `read(n)` on a buffered binary stream accepts: it takes a C `ssize_t`,
      so `MaxSize` and above raise `OverflowError`, and below -1 `ValueError`. */
  predicate ReadLengthAccepted(n: int) {
    -1 <= n < MaxSize
  }

  /** What one iteration of the reader loop got from the stream. `Fault` stands for an
      exception, which ends the reader thread. */
  datatype Event = EndOfStream | Skipped | Fault | Message(msg: Json)

  function Min(a: int, b: int): int { if a <= b then a else b }

  /** One iteration of the reader loop up to `json.loads`, on the bytes not yet read:
      `readline()`; stop on an empty read; skip a line that does not start with
      `Content-Length:`; parse the length; skip one line; `read(length)`, which returns
      less at the end of the stream, everything left for -1, and raises for a length it
      refuses; parse the body. Returns the event and the bytes left. */
  function ReadFrame(codec: Codec, s: seq<byte>): (r: (Event, seq<byte>))
    ensures r.0 == EndOfStream <==> s == []
    ensures |r.1| <= |s| && r.1 == s[|s| - |r.1|..]
    ensures s != [] ==> |r.1| < |s|
    ensures r.0 == Skipped <==> s != [] && !StartsWith(s[..LineLength(s)], HeaderBytes)
  {
    if s == [] then (EndOfStream, [])
    else
      var k := LineLength(s);
      if !StartsWith(s[..k], HeaderBytes) then (Skipped, s[k..])
      else ReadAfterHeader(codec, s[..k], s[k..])
  }

  /** After a `Content-Length:` line: parse the length, skip one line, read the body. */
  function ReadAfterHeader(codec: Codec, line: seq<byte>, s: seq<byte>): (r: (Event, seq<byte>))
    requires |line| >= |HeaderBytes|
    ensures r.0.Fault? || r.0.Message?
    ensures |r.1| <= |s| && r.1 == s[|s| - |r.1|..]
    ensures ContentLength(line).None? ==> r == (Fault, s)
  {
    match ContentLength(line)
    case None => (Fault, s)
    case Some(n) => ReadBody(codec, s[LineLength(s)..], n)
  }

  /** After the blank line: `read(n)`, then `json.loads` of what it returned. */
  function ReadBody(codec: Codec, s: seq<byte>, n: int): (r: (Event, seq<byte>))
    ensures r.0.Fault? || r.0.Message?
    ensures |r.1| <= |s| && r.1 == s[|s| - |r.1|..]
    ensures !ReadLengthAccepted(n) ==> r == (Fault, s)
  {
    if !ReadLengthAccepted(n) then (Fault, s)
    else
      var size := if n == -1 then |s| else Min(n, |s|);
      match codec.loads(s[..size])
      case None => (Fault, s[size..])
      case Some(j) => (Message(j), s[size..])
  }

  /** The messages the reader decodes from a stream, in order, and whether it stopped
      on an exception rather than at the end of the stream. */
  datatype Decoded = Decoded(msgs: seq<Json>, faulted: bool)

  function Decode(codec: Codec, s: seq<byte>): Decoded
    decreases |s|
  {
    var (ev, rest) := ReadFrame(codec, s);
    match ev
    case EndOfStream => Decoded([], false)
    case Fault => Decoded([], true)
    case Skipped => Decode(codec, rest)
    case Message(m) =>
      var d := Decode(codec, rest);
      Decoded([m] + d.msgs, d.faulted)
  }

  // ------------------------------------------------------------- round trip

  lemma {:induction false} LineLengthOf(x: string, tail: seq<byte>)
    requires AllAscii(x) && |x| >= 1 && x[|x| - 1] == '\n'
    requires forall i :: 0 <= i < |x| - 1 ==> x[i] != '\n'
    ensures LineLength(Utf8(x) + tail) == |x|
  {
    var s := Utf8(x) + tail;
    assert s[0] == x[0] as int as byte;
    if |x| > 1 {
      assert x[0] != '\n';
      assert (Utf8(x) + tail)[1..] == Utf8(x[1..]) + tail;
      LineLengthOf(x[1..], tail);
    }
  }

  lemma {:induction false} UpToAbsent(s: seq<byte>, b: byte)
    requires b !in s
    ensures UpTo(s, b) == s
  {
    if s != [] {
      UpToAbsent(s[1..], b);
      assert [s[0]] + s[1..] == s;
    }
  }

  lemma AsciiTextOfUtf8(x: string)
    requires AllAscii(x)
    ensures forall i :: 0 <= i < |Utf8(x)| ==> Utf8(x)[i] < 128
    ensures AsciiText(Utf8(x)) == x
  {
    Utf8Ascii(x);
    var t := AsciiText(Utf8(x));
    assert |t| == |x|;
    forall i | 0 <= i < |x| ensures t[i] == x[i] {
      AsciiTextAt(Utf8(x), i);
    }
  }

  lemma {:induction false} AsciiTextAt(bs: seq<byte>, i: nat)
    requires forall j :: 0 <= j < |bs| ==> bs[j] < 128
    requires i < |bs|
    ensures AsciiText(bs)[i] == bs[i] as int as char
  {
    if i > 0 {
      AsciiTextAt(bs[1..], i - 1);
    }
  }

  /** The Content-Length field of the header line: what follows the colon. */
  function HeaderField(n: nat): string {
    " " + Decimal(n) + "\r\n"
  }

  lemma HeaderFieldAscii(n: nat)
    ensures AllAscii(HeaderField(n))
    ensures forall i :: 0 <= i < |HeaderField(n)| ==> HeaderField(n)[i] != ':'
    ensures forall i :: 0 <= i < |HeaderField(n)| - 1 ==> HeaderField(n)[i] != '\n'
    ensures HeaderField(n)[|HeaderField(n)| - 1] == '\n'
  {
    var d := Decimal(n);
    assert forall i :: 0 <= i < |d| ==> IsDigit(d[i]);
    forall i | 0 <= i < |HeaderField(n)| ensures IsAscii(HeaderField(n)[i]) && HeaderField(n)[i] != ':' {
      assert i == 0 || i >= |HeaderField(n)| - 2 || IsDigit(d[i - 1]);
    }
  }

  /** The header line's bytes: the header name, then the field. */
  lemma HeaderLineBytes(n: nat)
    ensures AllAscii(HeaderName + HeaderField(n))
    ensures var line := Utf8(HeaderName + HeaderField(n));
      && |line| >= |HeaderBytes|
      && line[..|HeaderBytes|] == HeaderBytes
      && line[|HeaderBytes|..] == Utf8(HeaderField(n))
  {
    var field := HeaderField(n);
    HeaderFieldAscii(n);
    var text := HeaderName + field;
    assert AllAscii(text);
    Utf8Ascii(text);
    Utf8Ascii(field);
    var line := Utf8(text);
    assert line[..|HeaderBytes|] == HeaderBytes;
    assert line[|HeaderBytes|..] == Utf8(field);
  }

  /** The field parses back to the length. */
  lemma HeaderFieldParses(n: nat)
    ensures var f := Utf8(HeaderField(n));
      && (forall i :: 0 <= i < |f| ==> f[i] < 128)
      && UpTo(f, Colon) == f
      && ParseInt(AsciiText(f)) == Some(n)
  {
    HeaderFieldBytes(n);
    HeaderFieldValue(n);
  }

  lemma HeaderFieldBytes(n: nat)
    ensures var f := Utf8(HeaderField(n));
      && (forall i :: 0 <= i < |f| ==> f[i] < 128)
      && UpTo(f, Colon) == f
      && AsciiText(f) == HeaderField(n)
  {
    var field := HeaderField(n);
    HeaderFieldAscii(n);
    Utf8Ascii(field);
    assert Colon !in Utf8(field) by {
      forall i | 0 <= i < |field| ensures Utf8(field)[i] != Colon {
        assert field[i] != ':';
      }
    }
    UpToAbsent(Utf8(field), Colon);
    AsciiTextOfUtf8(field);
  }

  lemma HeaderFieldValue(n: nat)
    ensures ParseInt(HeaderField(n)) == Some(n)
  {
    DecimalRoundTrip(" ", n, "\r\n");
  }

  /** The header line of a frame parses to the body length. */
  lemma HeaderLineLength(n: nat)
    ensures var line := Utf8(HeaderName + HeaderField(n));
      && |line| >= |HeaderBytes| && StartsWith(line, HeaderBytes)
      && ContentLength(line) == Some(n)
  {
    HeaderLineBytes(n);
    HeaderFieldParses(n);
    AsciiTextOfUtf8(HeaderName + HeaderField(n));
  }

  /** A frame is its header line, an empty line and the body. */
  lemma FrameSplit(data: string, rest: seq<byte>)
    ensures Frame(data) + rest
      == Utf8(HeaderName + HeaderField(|data|)) + ([13, 10] + (Utf8(data) + rest))
  {
    HeaderLines(|data|);
    Regroup(Utf8(HeaderName + HeaderField(|data|)), [13, 10], Utf8(data), rest);
  }

  lemma Regroup<X>(a: seq<X>, b: seq<X>, c: seq<X>, d: seq<X>)
    ensures (a + b) + c + d == a + (b + (c + d))
  {
  }

  lemma HeaderLines(n: nat)
    ensures Utf8(Header(n)) == Utf8(HeaderName + HeaderField(n)) + [13, 10]
  {
    var line := HeaderName + HeaderField(n);
    var crlf := "\r\n";
    HeaderConcat(n);
    Utf8Append(line, crlf);
    CrLfBytes();
  }

  lemma HeaderConcat(n: nat)
    ensures Header(n) == (HeaderName + HeaderField(n)) + "\r\n"
  {
  }

  lemma CrLfBytes()
    ensures Utf8("\r\n") == [13, 10]
  {
  }

  /** The header line ends at its newline. */
  lemma HeaderLineEnds(n: nat, tail: seq<byte>)
    ensures LineLength(Utf8(HeaderName + HeaderField(n)) + tail) == |HeaderName + HeaderField(n)|
    ensures |Utf8(HeaderName + HeaderField(n))| == |HeaderName + HeaderField(n)|
  {
    var line := HeaderName + HeaderField(n);
    HeaderFieldAscii(n);
    HeaderLineBytes(n);
    assert forall i :: 0 <= i < |line| - 1 ==> line[i] != '\n' by {
      forall i | 0 <= i < |line| - 1 ensures line[i] != '\n' {
        if i >= |HeaderName| {
          assert line[i] == HeaderField(n)[i - |HeaderName|];
        }
      }
    }
    LineLengthOf(line, tail);
    Utf8Ascii(line);
  }

  lemma BlankLine(tail: seq<byte>)
    ensures LineLength([13, 10] + tail) == 2 && ([13, 10] + tail)[2..] == tail
  {
    assert ([13, 10] + tail)[1..] == [10] + tail;
  }

  /** Where the two `readline()` calls and the `read` cut a frame. */
  lemma FrameLayout(data: string, rest: seq<byte>)
    requires AllAscii(data)
    ensures var s := Frame(data) + rest;
      var k := |HeaderName + HeaderField(|data|)|;
      && LineLength(s) == k
      && s[..k] == Utf8(HeaderName + HeaderField(|data|))
      && LineLength(s[k..]) == 2
      && s[k + 2..] == Utf8(data) + rest
      && |Utf8(data)| == |data|
  {
    var line := Utf8(HeaderName + HeaderField(|data|));
    var tail := [13, 10] + (Utf8(data) + rest);
    FrameSplit(data, rest);
    HeaderLineEnds(|data|, tail);
    PrefixSuffix(line, tail);
    BlankLine(Utf8(data) + rest);
    Utf8Ascii(data);
  }

  lemma Associative<X>(a: seq<X>, b: seq<X>, c: seq<X>)
    ensures a + b + c == a + (b + c)
  {
  }

  lemma AppendNil<X>(a: seq<X>)
    ensures a + [] == a
  {
  }

  lemma PrefixSuffix<X>(a: seq<X>, b: seq<X>)
    ensures (a + b)[..|a|] == a && (a + b)[|a|..] == b
  {
  }

  /** Decoding the frame `_send` writes gives the message back and leaves exactly the
      bytes after it. */
  lemma ReadFrameRoundTrip(codec: Codec, m: Json, rest: seq<byte>)
    requires ValidCodec(codec)
    ensures ReadFrame(codec, Encode(codec, m) + rest) == (Message(m), rest)
  {
    var data := codec.dumps(m);
    assert AllAscii(data);
    var s := Frame(data) + rest;
    var k := |HeaderName + HeaderField(|data|)|;
    FrameLayout(data, rest);
    HeaderLineLength(|data|);
    ReadFrameOf(codec, s, k, |data|);
    BodyRoundTrip(codec, m, rest);
  }

  /** A header line of length `k` that declares `n`: the frame is read by `ReadBody`
      after the following line. */
  lemma ReadFrameOf(codec: Codec, s: seq<byte>, k: nat, n: int)
    requires s != [] && k == LineLength(s) && StartsWith(s[..k], HeaderBytes)
    requires |s[..k]| >= |HeaderBytes| && ContentLength(s[..k]) == Some(n)
    ensures ReadFrame(codec, s) == ReadBody(codec, s[k..][LineLength(s[k..])..], n)
  {
  }

  /** `read(len(data))` takes exactly the body `_send` wrote, which parses back. */
  lemma BodyRoundTrip(codec: Codec, m: Json, rest: seq<byte>)
    requires ValidCodec(codec)
    ensures ReadBody(codec, Utf8(codec.dumps(m)) + rest, |codec.dumps(m)|) == (Message(m), rest)
  {
    var data := codec.dumps(m);
    assert AllAscii(data) && |data| < MaxSize && codec.loads(Utf8(data)) == Some(m);
    Utf8Ascii(data);
    PrefixSuffix(Utf8(data), rest);
  }

  lemma ConsAppend<X>(ms: seq<X>, xs: seq<X>)
    requires ms != []
    ensures [ms[0]] + (ms[1..] + xs) == ms + xs
  {
  }

  /** The wire of a message put in front of others. */
  lemma WireFront(codec: Codec, m: Json, ms: seq<Json>)
    ensures Wire(codec, [m] + ms) == Encode(codec, m) + Wire(codec, ms)
  {
    assert ([m] + ms)[0] == m && ([m] + ms)[1..] == ms;
  }

  lemma WireCons(codec: Codec, ms: seq<Json>, rest: seq<byte>)
    requires ms != []
    ensures Wire(codec, ms) + rest == Encode(codec, ms[0]) + (Wire(codec, ms[1..]) + rest)
  {
  }

  lemma DecodeMessage(codec: Codec, s: seq<byte>, m: Json, rest: seq<byte>)
    requires ReadFrame(codec, s) == (Message(m), rest)
    ensures Decode(codec, s) == Decoded([m] + Decode(codec, rest).msgs, Decode(codec, rest).faulted)
  {
  }

  /** The first frame of a wire decodes to the first message sent. */
  lemma DecodeFirstFrame(codec: Codec, ms: seq<Json>, rest: seq<byte>)
    requires ValidCodec(codec) && ms != []
    ensures var d := Decode(codec, Wire(codec, ms[1..]) + rest);
      Decode(codec, Wire(codec, ms) + rest) == Decoded([ms[0]] + d.msgs, d.faulted)
  {
    var tail := Wire(codec, ms[1..]) + rest;
    WireCons(codec, ms, rest);
    ReadFrameRoundTrip(codec, ms[0], tail);
    DecodeMessage(codec, Encode(codec, ms[0]) + tail, ms[0], tail);
  }

  /** Every message sent arrives, in send order, and a stream made only of such frames
      ends cleanly. */
  lemma {:induction false} DecodeWire(codec: Codec, ms: seq<Json>, rest: seq<byte>)
    requires ValidCodec(codec)
    ensures Decode(codec, Wire(codec, ms) + rest)
      == Decoded(ms + Decode(codec, rest).msgs, Decode(codec, rest).faulted)
  {
    var d := Decode(codec, rest);
    if ms == [] {
      assert Wire(codec, ms) + rest == rest;
      assert ms + d.msgs == d.msgs;
    } else {
      DecodeFirstFrame(codec, ms, rest);
      DecodeWire(codec, ms[1..], rest);
      ConsAppend(ms, d.msgs);
    }
  }
}
