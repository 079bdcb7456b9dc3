/** HTTP/1.x framing of JSON-RPC requests and responses (`http_protocol_t`): deciding when
    a request has fully arrived, picking out its headers and body, and framing the
    response behind a fixed preamble whose length field is patched in place. */
module Http {
  import opened Shared
  import opened Decimal
  import opened Search
  import opened Pico
  import opened Buffers

  /** The response preamble: status line, a space-padded `Content-Length` field,
      the content type and the blank line. */
  const HeaderTemplate: string := StatusLine + LengthName + LengthPadding + TypeLines
  const StatusLine: string := "HTTP/1.1 200 OK\r\n"
  const LengthName: string := "Content-Length:"
  const LengthPadding: string := "          "
  const TypeLines: string := "\r\nContent-Type: application/json\r\n\r\n"
  const HeaderSize: nat := 78
  /** Where the decimal body length is written, and how many bytes are set aside for it. */
  const LengthOffset: nat := 33
  const LengthCapacity: nat := 9

  const PartialError := ProtocolError(-206, "Partial HTTP request")
  const NotHttpError := ProtocolError(-400, "Not a HTTP request")
  const UnsupportedError := ProtocolError(-405, "Unsupported request type")

  datatype RequestKind = NoKind | Get | Put | Post | Delete

  /** A range of the input buffer, as an offset and a length. */
  datatype Span = Span(start: nat, len: nat)

  /** What the last header parse left behind. Header fields hold the text their views
      showed; `body` is a range of the input, since its start offset matters. */
  datatype ParsedRequest = ParsedRequest(
    path: string,
    kind: RequestKind,
    keepAlive: string,
    contentType: string,
    contentLength: string,
    body: Span)

  const EmptyRequest := ParsedRequest("", NoKind, "", "", "", Span(0, 0))

  /** The preamble is 78 bytes; `Content-Length:` is followed by ten spaces, the
      last nine of which (offsets 33 to 41) are the length field, then CRLF. */
  lemma TemplateLayout()
    ensures |HeaderTemplate| == HeaderSize
    ensures HeaderTemplate[..17] == StatusLine
    ensures HeaderTemplate[17..LengthOffset - 1] == LengthName
    ensures HeaderTemplate[LengthOffset - 1..LengthOffset + LengthCapacity] == LengthPadding
    ensures forall i :: LengthOffset - 1 <= i < LengthOffset + LengthCapacity ==> HeaderTemplate[i] == ' '
    ensures HeaderTemplate[LengthOffset + LengthCapacity..] == TypeLines
  {
    var a, b, c, d := StatusLine, LengthName, LengthPadding, TypeLines;
    assert |a| == 17 && |b| == 15 && |c| == 10 && |d| == 36;
    assert HeaderTemplate[..17] == a;
    assert HeaderTemplate[17..32] == b;
    assert HeaderTemplate[32..42] == c;
    assert HeaderTemplate[42..] == d;
  }

  function KindOf(verb: string): Option<RequestKind>
  {
    if verb == "GET" then Some(Get)
    else if verb == "PUT" then Some(Put)
    else if verb == "POST" then Some(Post)
    else if verb == "DELETE" then Some(Delete)
    else None
  }

  /** The error `parse_headers` reports for a tokenizer result: only transport codes,
      and none exactly when the request parsed with one of the four supported methods. */
  function HeaderError(tok: PicoResult): (r: Option<ProtocolError>)
    ensures r.None? <==> tok.Parsed? && tok.verb in {"GET", "PUT", "POST", "DELETE"}
    ensures r.Some? ==> r.value.code in {-206, -400, -405}
    ensures tok.Partial? ==> r == Some(PartialError)
    ensures tok.Malformed? ==> r == Some(NotHttpError)
    ensures tok.Parsed? && r.Some? ==> r == Some(UnsupportedError)
  {
    match tok
    case Partial => Some(PartialError)
    case Malformed => Some(NotHttpError)
    case Parsed(verb, _, _) => if KindOf(verb).None? then Some(UnsupportedError) else None
  }

  /** The value of the last header whose name is exactly `name`, or `current` if none is. */
  function HeaderValue(hs: seq<Header>, name: string, current: string): string
  {
    if hs == [] then current
    else if hs[|hs| - 1].name == name then hs[|hs| - 1].value
    else HeaderValue(hs[..|hs| - 1], name, current)
  }

  /** A later duplicate header overrides every earlier one. */
  lemma {:induction false} LastHeaderWins(hs: seq<Header>, name: string, current: string, i: nat)
    requires i < |hs| && hs[i].name == name
    requires forall j :: i < j < |hs| ==> hs[j].name != name
    ensures HeaderValue(hs, name, current) == hs[i].value
    decreases |hs|
  {
    if i < |hs| - 1 {
      LastHeaderWins(hs[..|hs| - 1], name, current, i);
    }
  }

  /** A field whose header is absent keeps its previous value. */
  lemma {:induction false} AbsentHeaderKeeps(hs: seq<Header>, name: string, current: string)
    requires forall j :: 0 <= j < |hs| ==> hs[j].name != name
    ensures HeaderValue(hs, name, current) == current
    decreases |hs|
  {
    if hs != [] {
      AbsentHeaderKeeps(hs[..|hs| - 1], name, current);
    }
  }

  /** Header names are compared byte for byte: a request whose headers never use the exact
      name `Content-Length` (say it sends `content-length` instead) leaves the length as it
      was, whatever else it sets. */
  lemma HeaderNamesCaseSensitive(p: ParsedRequest, input: string, tok: PicoResult)
    requires tok.Parsed? && KindOf(tok.verb).Some?
    requires forall j :: 0 <= j < |tok.headers| ==> tok.headers[j].name != "Content-Length"
    ensures ParsedAfter(p, input, tok).contentLength == p.contentLength
  {
    AbsentHeaderKeeps(tok.headers, "Content-Length", p.contentLength);
  }

  /** The three recognised headers applied to `p`. */
  function ScanHeaders(p: ParsedRequest, hs: seq<Header>): ParsedRequest
  {
    p.(keepAlive := HeaderValue(hs, "Keep-Alive", p.keepAlive),
       contentType := HeaderValue(hs, "Content-Type", p.contentType),
       contentLength := HeaderValue(hs, "Content-Length", p.contentLength))
  }

  /** The body is everything after the first terminator; without one it is left as it was. */
  function SliceBody(p: ParsedRequest, input: string): ParsedRequest
  {
    match FindFirst(input, Terminator)
    case None => p
    case Some(pos) => p.(body := Span(pos + |Terminator|, |input| - (pos + |Terminator|)))
  }

  /** The state `parse_headers` leaves in `parsed`: nothing on a tokenizer failure, only the
      path on an unsupported method, and otherwise path, kind, headers and body. */
  function ParsedAfter(p: ParsedRequest, input: string, tok: PicoResult): ParsedRequest
  {
    match tok
    case Partial => p
    case Malformed => p
    case Parsed(verb, path, hs) =>
      match KindOf(verb)
      case None => p.(path := path)
      case Some(k) => SliceBody(ScanHeaders(p.(path := path, kind := k), hs), input)
  }

  /** The body of a successful parse is exactly what follows the first terminator. */
  lemma BodyFollowsFirstTerminator(p: ParsedRequest, input: string, tok: PicoResult)
    requires HeaderError(tok).None? && FindFirst(input, Terminator).Some?
    ensures var b := ParsedAfter(p, input, tok).body;
      b.start >= |Terminator| && b.start + b.len == |input| &&
      input[b.start - |Terminator|..b.start] == Terminator &&
      forall j :: 0 <= j < b.start - |Terminator| ==> !OccursAt(input, Terminator, j)
  {
  }

  /** Bytes required before the input is complete: the leading decimal value of the
      `Content-Length` text plus the offset where the body starts, in `size_t` arithmetic. */
  function ExpectedTotal(p: ParsedRequest): nat
  {
    (FromChars(p.contentLength) + p.body.start) % Size64
  }

  /** The threshold does not depend on where the bytes were split: any prefix that already
      holds the header block caches the same value as the whole request would. */
  lemma ThresholdIndependentOfSplit(p: ParsedRequest, pre: string, post: string, tok: PicoResult)
    requires HeaderError(tok).None?
    requires FindFirst(pre, Terminator).Some?
    ensures ExpectedTotal(ParsedAfter(p, pre, tok)) == ExpectedTotal(ParsedAfter(p, pre + post, tok))
  {
    FindFirstExtend(pre, post, Terminator);
  }

  /** For a header block of `|head|` bytes declaring `Content-Length: n`, the input is
      complete exactly when it holds `|head| + n` bytes. */
  lemma ThresholdIsHeaderPlusLength(p: ParsedRequest, head: string, body: string, tok: PicoResult, n: nat)
    requires HeaderError(tok).None?
    requires FindFirst(head, Terminator) == Some(|head| - |Terminator|)
    requires HeaderValue(tok.headers, "Content-Length", p.contentLength) == Digits(n)
    requires |head| + n < Size64
    ensures ExpectedTotal(ParsedAfter(p, head + body, tok)) == |head| + n
  {
    FindFirstExtend(head, body, Terminator);
    FromCharsDigits(n, []);
    assert Digits(n) + [] == Digits(n);
  }

  /** `size_t` subtraction of the mark from the output length. */
  function BodyLength(outputSize: nat, mark: nat): (r: nat)
    ensures mark <= outputSize < Size64 ==> r == outputSize - mark
  {
    (outputSize - mark) % Size64
  }

  /** The output after the decimal text of `n` is written at the length offset. */
  function PatchLength(out: seq<char>, n: nat): seq<char>
    requires LengthOffset + |Digits(n)| <= |out|
  {
    out[..LengthOffset] + Digits(n) + out[LengthOffset + |Digits(n)|..]
  }

  /** Patching a template-led output touches only the preamble's length field. */
  lemma PatchTemplate(body: seq<char>, n: nat)
    requires |Digits(n)| <= LengthCapacity
    ensures |HeaderTemplate| == HeaderSize
    ensures PatchLength(HeaderTemplate + body, n) ==
      HeaderTemplate[..LengthOffset] + Digits(n) + HeaderTemplate[LengthOffset + |Digits(n)|..] + body
  {
    TemplateLayout();
    var t := HeaderTemplate;
    var k := |Digits(n)|;
    assert (t + body)[..LengthOffset] == t[..LengthOffset];
    assert (t + body)[LengthOffset + k..] == t[LengthOffset + k..] + body;
  }

  /** A response framed at the start of the output: the body follows the 78-byte
      preamble unchanged, the preamble is unchanged outside the digits, and the length
      field holds the body length left-aligned, so it reads back as that length. */
  lemma FramedResponse(body: seq<char>)
    requires |body| < 1_000_000_000
    ensures |Digits(|body|)| <= LengthCapacity
    ensures var out := PatchLength(HeaderTemplate + body, |body|);
      var k := |Digits(|body|)|;
      |out| == HeaderSize + |body| && out[HeaderSize..] == body &&
      out[..LengthOffset] == HeaderTemplate[..LengthOffset] &&
      out[LengthOffset..LengthOffset + k] == Digits(|body|) &&
      out[LengthOffset + k..HeaderSize] == HeaderTemplate[LengthOffset + k..] &&
      FromChars(out[LengthOffset..LengthOffset + LengthCapacity]) == |body|
  {
    DigitsLength(|body|, 9);
    assert Pow10(9) == 1_000_000_000;
    var d := Digits(|body|);
    var k := |d|;
    PatchTemplate(body, |body|);
    var t := HeaderTemplate;
    var a, c := t[..LengthOffset], t[LengthOffset + k..];
    var out := a + d + c + body;
    assert |a| == LengthOffset && |c| == HeaderSize - LengthOffset - k;
    assert out[HeaderSize..] == body;
    assert out[..LengthOffset] == a;
    assert out[LengthOffset..LengthOffset + k] == d;
    assert out[LengthOffset + k..HeaderSize] == c;
    var pad := t[LengthOffset + k..LengthOffset + LengthCapacity];
    assert out[LengthOffset..LengthOffset + LengthCapacity] == d + pad;
    if pad != [] {
      assert pad[0] == t[LengthOffset + k];
    }
    FromCharsDigits(|body|, pad);
  }

  class HttpProtocol {
    /** Output length right after the preamble, then the body length. */
    var bodySize: nat
    /** Bytes expected before the input is complete, once headers have parsed. */
    var contentLength: Option<nat>
    /** The active parsed request. */
    var parsed: ParsedRequest

    constructor ()
      ensures bodySize == 0 && contentLength == None && parsed == EmptyRequest
    {
      bodySize := 0;
      contentLength := None;
      parsed := EmptyRequest;
    }

    /** `prepare_response`: appends the preamble and marks where the body begins. */
    method PrepareResponse(pipes: OutputPipe)
      requires pipes.Valid() && pipes.size + HeaderSize <= pipes.buf.Length
      modifies this`bodySize, pipes, pipes.buf
      ensures pipes.Valid()
      ensures pipes.Output() == old(pipes.Output()) + HeaderTemplate
      ensures bodySize == |pipes.Output()|
      ensures contentLength == old(contentLength) && parsed == old(parsed)
    {
      TemplateLayout();
      pipes.AppendReserved(HeaderTemplate);
      bodySize := pipes.size;
    }

    /** `append_response`: appends the response bytes; the result is the sink's verdict. */
    method AppendResponse(pipes: OutputPipe, response: string) returns (ok: bool)
      requires pipes.Valid()
      modifies pipes, pipes.buf
      ensures pipes.Valid()
      ensures ok == (old(pipes.size) + |response| <= pipes.buf.Length)
      ensures pipes.Output() == if ok then old(pipes.Output()) + response else old(pipes.Output())
    {
      ok := pipes.AppendOutputs(response);
    }

    /** `append_error`: appends only the error code text; the message is not written. */
    method AppendError(pipes: OutputPipe, errorCode: string, message: string) returns (ok: bool)
      requires pipes.Valid()
      modifies pipes, pipes.buf
      ensures pipes.Valid()
      ensures ok == (old(pipes.size) + |errorCode| <= pipes.buf.Length)
      ensures pipes.Output() == if ok then old(pipes.Output()) + errorCode else old(pipes.Output())
    {
      ok := pipes.AppendOutputs(errorCode);
    }

    /** `finalize_response`: turns the mark into the body length and writes its digits at
        absolute offset 33 of the output, in place; nothing else changes, so unused bytes
        of the nine-byte field keep their spaces. */
    method FinalizeResponse(pipes: OutputPipe)
      requires pipes.Valid()
      requires LengthOffset + LengthCapacity <= pipes.size
      requires |Digits(BodyLength(pipes.size, bodySize))| <= LengthCapacity
      modifies this`bodySize, pipes.buf
      ensures pipes.Valid()
      ensures bodySize == BodyLength(|old(pipes.Output())|, old(bodySize))
      ensures pipes.Output() == PatchLength(old(pipes.Output()), bodySize)
      ensures contentLength == old(contentLength) && parsed == old(parsed)
    {
      bodySize := BodyLength(pipes.size, bodySize);
      var digits := Digits(bodySize);
      ghost var before := pipes.buf[..];
      CopyInto(pipes.buf, LengthOffset, digits);
      assert pipes.buf[..pipes.size] == before[..pipes.size][..LengthOffset] + digits
        + before[..pipes.size][LengthOffset + |digits|..];
    }

    /** `reset`: forgets the expected length and nothing else. */
    method Reset()
      modifies this`contentLength
      ensures contentLength == None
      ensures bodySize == old(bodySize) && parsed == old(parsed)
    {
      contentLength := None;
    }

    /** `get_content`: the body range of the last successful parse. */
    function GetContent(): Span
      reads this
    {
      parsed.body
    }

    /** `parse_headers` after the tokenizer has run on `input`. */
    method ParseHeaders(input: string, tok: PicoResult) returns (err: Option<ProtocolError>)
      modifies this`parsed
      ensures err == HeaderError(tok)
      ensures parsed == ParsedAfter(old(parsed), input, tok)
      ensures bodySize == old(bodySize) && contentLength == old(contentLength)
    {
      match tok
      case Partial =>
        return Some(PartialError);
      case Malformed =>
        return Some(NotHttpError);
      case Parsed(verb, path, headers) =>
        parsed := parsed.(path := path);
        var kind := KindOf(verb);
        if kind.None? {
          return Some(UnsupportedError);
        }
        parsed := parsed.(kind := kind.value);
        ghost var start := parsed;
        var i := 0;
        while i < |headers|
          invariant 0 <= i <= |headers|
          invariant parsed == ScanHeaders(start, headers[..i])
        {
          var h := headers[i];
          if |h.name| != 0 {
            if h.name == "Keep-Alive" {
              parsed := parsed.(keepAlive := h.value);
            } else if h.name == "Content-Type" {
              parsed := parsed.(contentType := h.value);
            } else if h.name == "Content-Length" {
              parsed := parsed.(contentLength := h.value);
            }
          }
          assert headers[..i + 1][..i] == headers[..i];
          i := i + 1;
        }
        assert headers[..i] == headers;
        var pos := FindFirst(input, Terminator);
        if pos.Some? {
          parsed := parsed.(body := Span(pos.value + |Terminator|, |input| - (pos.value + |Terminator|)));
        }
        return None;
    }

    /** `is_input_complete`: parses headers only while the expected length is unknown,
        caches it on the first success, and afterwards only compares the input size. */
    method IsInputComplete(input: string, tok: PicoResult) returns (complete: bool)
      requires tok.Parsed? ==> FindFirst(input, Terminator).Some?
      modifies this`contentLength, this`parsed
      ensures old(contentLength).Some? ==>
        contentLength == old(contentLength) && parsed == old(parsed) &&
        complete == (|input| >= contentLength.value)
      ensures old(contentLength).None? ==> parsed == ParsedAfter(old(parsed), input, tok)
      ensures old(contentLength).None? && HeaderError(tok).Some? ==>
        contentLength == None && !complete
      ensures old(contentLength).None? && HeaderError(tok).None? ==>
        contentLength == Some(ExpectedTotal(parsed)) && complete == (|input| >= ExpectedTotal(parsed))
      ensures bodySize == old(bodySize)
    {
      if contentLength.None? {
        var err := ParseHeaders(input, tok);
        if err.Some? {
          return false;
        }
        var expected := FromChars(parsed.contentLength);
        expected := (expected + parsed.body.start) % Size64;
        contentLength := Some(expected);
      }
      complete := |input| >= contentLength.value;
    }
  }
}
