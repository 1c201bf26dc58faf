/** Well-formed responses on the wire (RFC 7230 sections 3 and 4.1), and what the reader makes of them. */
module HttpWire {
  import opened Prelude
  import opened Text
  import opened Numbers
  import opened Header
  import opened Message
  import opened ReadBuffer
  import opened Response
  import opened HttpReader
  import opened HttpRuns

  /** A header line with the blanks around its value. */
  datatype Field = Field(key: string, left: string, value: string, right: string)

  datatype Chunk = Chunk(size: string, data: string)

  datatype Framing = Length(body: string) | Chunked(chunks: seq<Chunk>, last: string)

  datatype WireResponse = WireResponse(
    version: string, status: string, reason: string, fields: seq<Field>, framing: Framing)

  // ---- The format. ----

  function FieldLine(f: Field): string {
    f.key + ":" + (f.left + f.value + f.right)
  }

  function EncodeFields(fields: seq<Field>): string {
    if fields == [] then CRLF else FieldLine(fields[0]) + CRLF + EncodeFields(fields[1..])
  }

  /** Chunks, the chunk of size zero, and an empty trailer. */
  function EncodeChunks(chunks: seq<Chunk>, last: string): string {
    if chunks == [] then last + CRLF + CRLF
    else chunks[0].size + CRLF + (chunks[0].data + CRLF) + EncodeChunks(chunks[1..], last)
  }

  function EncodeBody(f: Framing): string {
    match f case Length(body) => body case Chunked(chunks, last) => EncodeChunks(chunks, last)
  }

  function FirstLine(r: WireResponse): string {
    r.version + " " + r.status + " " + r.reason
  }

  function Encode(r: WireResponse): string {
    FirstLine(r) + CRLF + EncodeFields(r.fields) + EncodeBody(r.framing)
  }

  function EncodeAll(rs: seq<WireResponse>): string {
    if rs == [] then "" else Encode(rs[0]) + EncodeAll(rs[1..])
  }

  // ---- What the format means. ----

  function Headers(fields: seq<Field>): seq<Header> {
    if fields == [] then [] else [Make(fields[0].key, fields[0].value)] + Headers(fields[1..])
  }

  function Data(chunks: seq<Chunk>): string {
    if chunks == [] then "" else chunks[0].data + Data(chunks[1..])
  }

  function Body(f: Framing): string {
    match f case Length(body) => body case Chunked(chunks, _) => Data(chunks)
  }

  predicate ProperField(f: Field) {
    && ':' !in f.key && OneLine(FieldLine(f))
    && AllSpace(f.left) && Trimmed(f.value) && AllSpace(f.right)
  }

  /** A chunk is not empty, and its size line states its length; extensions are ignored. */
  predicate ProperChunk(c: Chunk) {
    c.data != "" && OneLine(c.size) && Stoi(c.size, 16) == Ok(|c.data|)
  }

  /**
   * A Content-Length that agrees with the body, or without it the chunked coding. What the
   * standard makes of a Transfer-Encoding beside the length is in HttpFraming.
   */
  predicate ProperFraming(f: Framing, headers: seq<Header>) {
    match f
    case Length(body) =>
      (match HeaderValue(headers, "Content-Length")
       case Some(v) => Stoi(v, 10) == Ok(|body|)
       case None => false)
    case Chunked(chunks, last) =>
      && HeaderValue(headers, "Content-Length") == None
      && (match HeaderValue(headers, "Transfer-Encoding")
          case Some(v) => Find(v, "chunked", 0).Some?
          case None => false)
      && OneLine(last) && Stoi(last, 16) == Ok(0)
      && forall i | 0 <= i < |chunks| :: ProperChunk(chunks[i])
  }

  /** A chunk whose size is written in hexadecimal digits of either case. */
  function HexChunk(data: string, upper: bool): Chunk {
    Chunk(Hex(|data|, upper), data)
  }

  lemma HexChunkProper(data: string, upper: bool)
    requires data != "" && |data| < INT_LIMIT
    ensures ProperChunk(HexChunk(data, upper))
  {
    var size := Hex(|data|, upper);
    ScanOfHex(|data|, upper);
    StoiOfDigits(size, 16);
    assert forall i | 0 <= i < |size| :: IsDigit(size[i], 16);
  }

  predicate ProperFields(fields: seq<Field>) {
    forall i | 0 <= i < |fields| :: ProperField(fields[i])
  }

  predicate Proper(r: WireResponse) {
    && ' ' !in r.version && ' ' !in r.status && OneLine(FirstLine(r))
    && Stoi(r.status, 10).Ok?
    && ProperFields(r.fields)
    && ProperFraming(r.framing, Headers(r.fields))
  }

  /** The content that a response object must end up with; a stated length becomes canonical. */
  function Meaning(r: WireResponse): Content {
    var headers := Headers(r.fields);
    Content(r.version, Stoi(r.status, 10).GetOr(0) % 65536, r.reason,
            if r.framing.Length? then SetHeader(headers, "Content-Length", Decimal(|r.framing.body|)) else headers,
            Body(r.framing))
  }

  predicate AsksToClose(r: WireResponse) {
    HeaderValue(Meaning(r).headers, "Connection") == Some("close")
  }

  /** The calls that one response must cause: the pool gets the connection back, or loses it. */
  function CallsFor(id: nat, r: WireResponse): seq<Call> {
    if AsksToClose(r) then [Settle(id, Meaning(r)), Remove] else [Release, Settle(id, Meaning(r))]
  }

  function AllCalls(supply: seq<Request>, rs: seq<WireResponse>): seq<Call>
    requires |supply| == |rs|
  {
    if rs == [] then [] else CallsFor(supply[0].id, rs[0]) + AllCalls(supply[1..], rs[1..])
  }

  /** Proper responses, of which only the last may ask for the connection to be closed. */
  predicate ProperSequence(rs: seq<WireResponse>) {
    forall i | 0 <= i < |rs| :: Proper(rs[i]) && (AsksToClose(rs[i]) ==> i == |rs| - 1)
  }

  /** Response objects start, and restart after a reset, without headers and body. */
  predicate Fresh(supply: seq<Request>) {
    forall i | 0 <= i < |supply| :: supply[i].content.headers == [] && supply[i].content.body == ""
  }

  // ---- The reader, one line or block at a time. ----

  lemma DecodeLine(r: Reader, line: string, rest: string, supply: seq<Request>)
    requires Consistent(r) && !r.closed && r.timer.armed && !Awaiting(r) && ReadOf(r.want) == Some(Delimited(CRLF))
    requires OneLine(line)
    ensures Consistent(Handle(r, line)) && Handle(r, line) == Continue(r, line)
    ensures Decode(r, line + CRLF + rest, supply) == Decode(Handle(r, line), rest, supply)
  {
    OpenExtended(r);
    assert Handle(r, line) == Continue(r, line);
    hide Continue;
    hide Handle;
    hide Find;
    HandleConsistent(r, line);
    FindLineEnd(line, rest);
    var s := line + CRLF + rest;
    assert s[..|line|] == line && s[|line| + 2..] == rest;
  }

  lemma DecodeBytes(r: Reader, data: string, rest: string, supply: seq<Request>)
    requires Consistent(r) && !r.closed && r.timer.armed && ReadOf(r.want) == Some(Exactly(|data|))
    ensures Consistent(Handle(r, data)) && Handle(r, data) == Continue(r, data)
    ensures Decode(r, data + rest, supply) == Decode(Handle(r, data), rest, supply)
  {
    OpenExtended(r);
    assert Handle(r, data) == Continue(r, data);
    hide Continue;
    hide Handle;
    HandleConsistent(r, data);
    assert (data + rest)[..|data|] == data && (data + rest)[|data|..] == rest;
  }

  /** One header line. */
  lemma FieldLineRead(r: Reader, f: Field)
    requires Consistent(r) && r.want == HeaderLine && ProperField(f)
    ensures var content := r.res.value.content;
            Continue(r, FieldLine(f)) ==
            Update(r, content.(headers := content.headers + [Make(f.key, f.value)]), HeaderLine)
  {
    hide ParseHeaderLine;
    ParseOfHeaderLine(f.key, f.left, f.value, f.right);
  }

  function WithHeaders(r: Reader, headers: seq<Header>): Reader
    requires r.res.Some?
  {
    Update(r, r.res.value.content.(headers := r.res.value.content.headers + headers), HeaderLine)
  }

  lemma TwoWithHeaders(r: Reader, a: seq<Header>, b: seq<Header>)
    requires r.res.Some?
    ensures WithHeaders(WithHeaders(r, a), b) == WithHeaders(r, a + b)
  {
    var before := r.res.value.content.headers;
    assert (before + a) + b == before + (a + b);
  }

  lemma NoHeaders(r: Reader)
    requires r.res.Some? && r.want == HeaderLine
    ensures WithHeaders(r, []) == r
  {
    assert r.res.value.content.headers + [] == r.res.value.content.headers;
  }

  /** Header lines are collected in order, up to the empty line. */
  lemma {:induction false} DecodeFields(r: Reader, fields: seq<Field>, rest: string, supply: seq<Request>)
    requires Consistent(r) && !r.closed && r.timer.armed && r.want == HeaderLine && ProperFields(fields)
    ensures Consistent(OnHeadersEnd(WithHeaders(r, Headers(fields)))) &&
            Decode(r, EncodeFields(fields) + rest, supply) ==
            Decode(OnHeadersEnd(WithHeaders(r, Headers(fields))), rest, supply)
    decreases |fields|
  {
    hide Decode;
    hide OnHeadersEnd;
    hide Handle;
    if fields == [] {
      assert EncodeFields(fields) + rest == "" + CRLF + rest;
      DecodeLine(r, "", rest, supply);
      NoHeaders(r);
    } else {
      var f := fields[0];
      var line, more := FieldLine(f), EncodeFields(fields[1..]) + rest;
      assert EncodeFields(fields) + rest == line + CRLF + more;
      DecodeLine(r, line, more, supply);
      FieldLineRead(r, f);
      hide Continue;
      hide FieldLine;
      var next := WithHeaders(r, [Make(f.key, f.value)]);
      assert next == Handle(r, line);
      DecodeFields(next, fields[1..], rest, supply);
      TwoWithHeaders(r, [Make(f.key, f.value)], Headers(fields[1..]));
    }
  }

  lemma ChunkLineEnd(data: string)
    requires |data| < INT_LIMIT
    ensures WithoutLineEnd(data + CRLF) == data
  {
    assert (data + CRLF)[..|data|] == data;
  }

  /** One chunk: its size line, then its data with the line end behind it. */
  lemma DecodeChunk(r: Reader, c: Chunk, rest: string, supply: seq<Request>)
    requires Consistent(r) && !r.closed && r.timer.armed && r.want == ChunkSizeLine && ProperChunk(c)
    ensures var content := r.res.value.content;
            var next := Update(r, content.(body := content.body + c.data), ChunkSizeLine);
            Decode(r, c.size + CRLF + (c.data + CRLF) + rest, supply) == Decode(next, rest, supply)
  {
    hide Decode;
    hide Stoi;
    StoiInRange(c.size, 16);
    DecodeLine(r, c.size, c.data + CRLF + rest, supply);
    assert c.size + CRLF + (c.data + CRLF) + rest == c.size + CRLF + (c.data + CRLF + rest);
    var sized := Handle(r, c.size);
    assert sized.want == ChunkBytes(|c.data| + 2);
    DecodeBytes(sized, c.data + CRLF, rest, supply);
    ChunkLineEnd(c.data);
  }

  /** Chunked decoding inverts chunked encoding and leaves exactly what follows. */
  lemma {:induction false} DecodeChunks(
      r: Reader, chunks: seq<Chunk>, last: string, rest: string, supply: seq<Request>)
    requires Consistent(r) && !r.closed && r.timer.armed && r.want == ChunkSizeLine
    requires forall i | 0 <= i < |chunks| :: ProperChunk(chunks[i])
    requires OneLine(last) && Stoi(last, 16) == Ok(0)
    ensures var content := r.res.value.content;
            var all := Update(r, content.(body := content.body + Data(chunks)), LastLine);
            Consistent(Extract(all, "")) &&
            Decode(r, EncodeChunks(chunks, last) + rest, supply) == Decode(Extract(all, ""), rest, supply)
    decreases |chunks|
  {
    hide Decode;
    hide Extract;
    hide Stoi;
    hide ProperChunk;
    var content := r.res.value.content;
    if chunks == [] {
      assert EncodeChunks(chunks, last) + rest == last + CRLF + ("" + CRLF + rest);
      DecodeLine(r, last, "" + CRLF + rest, supply);
      DecodeLine(Handle(r, last), "", rest, supply);
      assert content.body + Data(chunks) == content.body;
    } else {
      var c, more := chunks[0], EncodeChunks(chunks[1..], last) + rest;
      assert EncodeChunks(chunks, last) + rest == c.size + CRLF + (c.data + CRLF) + more;
      DecodeChunk(r, c, more, supply);
      DecodeChunks(Update(r, content.(body := content.body + c.data), ChunkSizeLine), chunks[1..], last, rest, supply);
      assert content.body + c.data + Data(chunks[1..]) == content.body + Data(chunks);
    }
  }

  /** The state after a response has been answered in full. */
  function Answered(r: Reader, id: nat, w: WireResponse): Reader {
    r.(want := if AsksToClose(w) then Nothing else StatusLine,
       closed := AsksToClose(w),
       timer := r.timer.(armed := !AsksToClose(w)),
       chunked := w.framing.Chunked?,
       res := None,
       writes := r.writes + 1,
       attached := r.attached + [id],
       calls := r.calls + CallsFor(id, w))
  }

  /** What is read after the headers is what their framing says. */
  lemma HeadersEndAs(r: Reader, w: WireResponse)
    requires Proper(w)
    requires Consistent(r) && !r.closed && r.timer.armed && r.want == HeaderLine
    requires r.res.value.content.headers == Headers(w.fields)
    ensures Consistent(OnHeadersEnd(r))
    ensures OnHeadersEnd(r) ==
            if w.framing.Length? then r.(chunked := false, want := BodyBytes(|w.framing.body|))
            else r.(chunked := true, want := ChunkSizeLine)
  {
    hide Stoi;
    hide HeaderValue;
    hide ProperChunk;
    hide Unframed;
    HandleConsistent(r, "");
    if w.framing.Length? {
      StoiInRange(HeaderValue(Headers(w.fields), "Content-Length").value, 10);
    }
  }

  /** From the end of the headers on: the body is read as its framing says. */
  lemma DecodeBody(r: Reader, w: WireResponse, rest: string, supply: seq<Request>)
    requires Proper(w)
    requires Consistent(r) && !r.closed && r.timer.armed && r.want == HeaderLine
    requires r.res.value.content == Meaning(w).(headers := Headers(w.fields), body := "")
    ensures Consistent(OnHeadersEnd(r)) &&
            Consistent(Extract(Complete(r, w), Body(w.framing))) &&
            Decode(OnHeadersEnd(r), EncodeBody(w.framing) + rest, supply) ==
            Decode(Extract(Complete(r, w), Body(w.framing)), rest, supply)
  {
    hide Decode;
    hide Extract;
    hide Stoi;
    hide HeaderValue;
    hide ProperChunk;
    hide OnHeadersEnd;
    hide SetHeader;
    HeadersEndAs(r, w);
    var start := OnHeadersEnd(r);
    match w.framing {
      case Length(body) =>
        DecodeBytes(start, body, rest, supply);
      case Chunked(chunks, last) =>
        DecodeChunks(start, chunks, last, rest, supply);
        assert "" + Data(chunks) == Data(chunks);
        ExtractIgnoresData(Complete(r, w), "", Body(w.framing));
    }
  }

  /** The reader when all of the response has been read. */
  function Complete(r: Reader, w: WireResponse): Reader
    requires r.res.Some?
  {
    match w.framing
    case Length(body) => r.(chunked := false, want := BodyBytes(|body|))
    case Chunked(chunks, _) =>
      Update(r.(chunked := true), r.res.value.content.(body := Data(chunks)), LastLine)
  }

  lemma ExtractIgnoresData(r: Reader, a: string, b: string)
    requires r.res.Some? && r.chunked
    ensures Extract(r, a) == Extract(r, b)
  {
  }

  lemma FirstLineRead(r: Reader, w: WireResponse)
    requires Consistent(r) && r.want == StatusLine && r.res.Some? && Proper(w)
    ensures var content := r.res.value.content;
            Continue(r, FirstLine(w)) ==
            Update(r, Meaning(w).(headers := content.headers, body := content.body), HeaderLine)
  {
    hide Stoi;
    hide ParseStatusLine;
    hide HeaderValue;
    hide SetHeader;
    ParseOfStatusLine(r.res.value.content, w.version, w.status, w.reason);
  }

  lemma DecodeResponse(r: Reader, request: Request, w: WireResponse, rest: string, supply: seq<Request>)
    requires Consistent(r) && !r.closed && r.timer.armed && Awaiting(r) && Proper(w) && Fresh([request])
    ensures Consistent(Answered(r, request.id, w))
    ensures Decode(r, Encode(w) + rest, [request] + supply) == Decode(Answered(r, request.id, w), rest, supply)
  {
    hide Decode;
    hide OnHeadersEnd;
    hide Extract;
    hide Continue;
    hide Handle;
    hide FirstLine;
    hide Stoi;
    hide SetHeader;
    hide HeaderValue;
    hide ParseStatusLine;
    var r1 := Written(r, request);
    DecodeWrite(r, Encode(w) + rest, request, supply);
    var more := EncodeFields(w.fields) + (EncodeBody(w.framing) + rest);
    assert Encode(w) + rest == FirstLine(w) + CRLF + more;
    DecodeLine(r1, FirstLine(w), more, supply);
    FirstLineRead(r1, w);
    assert [request][0] == request;
    var r2 := Handle(r1, FirstLine(w));
    DecodeFields(r2, w.fields, EncodeBody(w.framing) + rest, supply);
    assert [] + Headers(w.fields) == Headers(w.fields);
    var r3 := Update(r2, r2.res.value.content.(headers := Headers(w.fields)), HeaderLine);
    DecodeBody(r3, w, rest, supply);
    ExtractAnswers(r, request.id, w, Complete(r3, w));
  }

  lemma DecodeWrite(r: Reader, s: string, request: Request, supply: seq<Request>)
    requires Consistent(r) && !r.closed && r.timer.armed && Awaiting(r)
    ensures Decode(r, s, [request] + supply) == Decode(Written(r, request), s, supply)
  {
    hide Consume;
    assert ([request] + supply)[1..] == supply;
  }

  lemma ExtractAnswers(r: Reader, id: nat, w: WireResponse, done: Reader)
    requires Consistent(r) && !r.closed && r.timer.armed && Awaiting(r)
    requires done.res.Some? && done.res.value.id == id && !done.res.value.ready
    requires done.chunked == w.framing.Chunked?
    requires done.res.value.content ==
             Meaning(w).(headers := Headers(w.fields), body := if done.chunked then Body(w.framing) else "")
    requires done == r.(want := done.want, chunked := done.chunked, res := done.res,
                        writes := r.writes + 1, attached := r.attached + [id])
    ensures Extract(done, Body(w.framing)) == Answered(r, id, w)
  {
    hide HeaderValue;
    hide SetHeader;
    assert r.calls + [Release] + [Settle(id, Meaning(w))] == r.calls + [Release, Settle(id, Meaning(w))];
    assert r.calls + [Settle(id, Meaning(w))] + [Remove] == r.calls + [Settle(id, Meaning(w)), Remove];
  }

  /**
   * Decoding a sequence of responses, one request for each: every attempt is settled with the
   * meaning of its own response, in order, and no byte is left over.
   */
  lemma {:induction false} DecodeAll(r: Reader, rs: seq<WireResponse>, supply: seq<Request>)
    requires Consistent(r) && ((!r.closed && r.timer.armed && Awaiting(r)) || (rs == [] && r.want == Nothing))
    requires ProperSequence(rs) && |supply| == |rs| && Fresh(supply)
    ensures var end := Decode(r, EncodeAll(rs), supply);
            && end.reader.calls == r.calls + AllCalls(supply, rs)
            && end.buffered == "" && end.supply == []
    decreases |rs|
  {
    hide Answered;
    hide ProperSequence;
    hide Decode;
    hide CallsFor;
    hide Encode;
    hide Fresh;
    hide Consistent;
    hide Proper;
    hide AsksToClose;
    if rs == [] {
      DecodeNothing(r);
      assert r.calls + [] == r.calls;
    } else {
      var request, next := supply[0], Answered(r, supply[0].id, rs[0]);
      assert supply == [request] + supply[1..];
      ProperTail(rs);
      FreshTail(supply);
      DecodeResponse(r, request, rs[0], EncodeAll(rs[1..]), supply[1..]);
      AnsweredState(r, request.id, rs[0]);
      DecodeAll(next, rs[1..], supply[1..]);
      var first, more := CallsFor(request.id, rs[0]), AllCalls(supply[1..], rs[1..]);
      assert (r.calls + first) + more == r.calls + (first + more);
    }
  }

  lemma DecodeNothing(r: Reader)
    requires Consistent(r) && (Awaiting(r) || r.want == Nothing)
    ensures Decode(r, "", []) == Conn(r, "", "", [])
  {
  }

  lemma FreshTail(supply: seq<Request>)
    requires Fresh(supply) && supply != []
    ensures Fresh([supply[0]]) && Fresh(supply[1..])
  {
  }

  lemma ProperTail(rs: seq<WireResponse>)
    requires ProperSequence(rs) && rs != []
    ensures Proper(rs[0]) && ProperSequence(rs[1..]) && (AsksToClose(rs[0]) ==> rs[1..] == [])
  {
    hide Proper;
    hide AsksToClose;
  }

  lemma AnsweredState(r: Reader, id: nat, w: WireResponse)
    ensures var next := Answered(r, id, w);
            && next.calls == r.calls + CallsFor(id, w)
            && (if AsksToClose(w) then next.want == Nothing else !next.closed && next.timer.armed && Awaiting(next))
  {
  }

  /** The connection when it has been made: nothing read yet, all responses on their way. */
  function Start(rs: seq<WireResponse>, supply: seq<Request>): Conn {
    Conn(CONNECTED, "", EncodeAll(rs), supply)
  }

  /**
   * Every run, however the bytes of the responses are cut into segments and whenever callbacks
   * and writes happen. If no status line is read before its request is written, the calls made
   * so far are a beginning of the expected ones; when nothing more can happen they are all of
   * them, no byte is left over, and every request has been written. Otherwise the connection is
   * closed there: the calls up to that point are a beginning of the expected ones, and removing
   * the connection is the last call.
   */
  lemma EveryRunDelivers(rs: seq<WireResponse>, supply: seq<Request>, steps: seq<HttpRuns.Step>)
    requires ProperSequence(rs) && |supply| == |rs| && Fresh(supply)
    requires HttpRuns.Possible(Start(rs, supply), steps)
    ensures var end := HttpRuns.Run(Start(rs, supply), steps);
            if Attended(Start(rs, supply), steps) then
              && end.reader.calls <= AllCalls(supply, rs)
              && (Quiescent(end) ==>
                    && end.reader.calls == AllCalls(supply, rs)
                    && end.buffered == "" && end.wire == "" && end.supply == [])
            else
              && end.reader.closed
              && exists before :: before <= AllCalls(supply, rs) && end.reader.calls == before + [Remove]
  {
    hide Attended;
    hide HttpRuns.Run;
    hide HttpRuns.Possible;
    hide ProperSequence;
    hide AllCalls;
    if Attended(Start(rs, supply), steps) {
      AttendedDelivers(rs, supply, steps);
    } else {
      var k := UnattendedStops(Start(rs, supply), steps);
      AttendedDelivers(rs, supply, steps[..k]);
      RunReadsToEnd(Start(rs, supply), steps[..k]);
      var before := HttpRuns.Run(Start(rs, supply), steps[..k]).reader.calls;
      assert before <= AllCalls(supply, rs);
    }
  }

  lemma AttendedDelivers(rs: seq<WireResponse>, supply: seq<Request>, steps: seq<HttpRuns.Step>)
    requires ProperSequence(rs) && |supply| == |rs| && Fresh(supply)
    requires HttpRuns.Possible(Start(rs, supply), steps) && Attended(Start(rs, supply), steps)
    ensures var end := HttpRuns.Run(Start(rs, supply), steps);
            && end.reader.calls <= AllCalls(supply, rs)
            && (Quiescent(end) ==>
                  && end.reader.calls == AllCalls(supply, rs)
                  && end.buffered == "" && end.wire == "" && end.supply == [])
  {
    hide Decode;
    hide HttpRuns.Run;
    hide HttpRuns.Possible;
    hide Attended;
    hide ProperSequence;
    hide AllCalls;
    var start := Start(rs, supply);
    var end := HttpRuns.Run(start, steps);
    FragmentationIrrelevant(start, steps);
    assert "" + EncodeAll(rs) == EncodeAll(rs);
    DecodeAll(CONNECTED, rs, supply);
    assert [] + AllCalls(supply, rs) == AllCalls(supply, rs);
    DecodeExtends(end.reader, end.buffered + end.wire, end.supply);
  }
}
