/** Concrete runs from the start of a connection, a pool or a client on which a property fails. */
module HttpFailures {
  import opened Prelude
  import opened Text
  import opened Numbers
  import opened Header
  import opened Message
  import opened Response
  import opened HttpReader

  // ---- One connection. ----

  /** The event may happen, and this is what it makes of the reader. */
  predicate Leads(r: Reader, e: Event, next: Reader) {
    Consistent(r) && Allowed(r, e) && Consistent(next) && After(r, e) == next
  }

  /** A run is known from the states it passes through. */
  lemma {:induction false} AlongPath(states: seq<Reader>, events: seq<Event>)
    requires |states| == |events| + 1 && Consistent(states[0])
    requires forall i :: 0 <= i < |events| ==> Leads(states[i], events[i], states[i + 1])
    ensures AllAllowed(states[0], events) && AfterAll(states[0], events) == states[|events|]
  {
    hide After;
    if events != [] {
      AlongPath(states[1..], events[1..]);
    }
  }

  const STATUS_LINE := "1 200 OK"
  const CHUNKED_LINE := "Transfer-Encoding:chunked"
  const EMPTY_LINE := "Content-Length:0"

  const OK_CONTENT := BLANK.(version := "1", status := 200, reason := "OK")

  lemma StatusRead(r: Reader)
    requires Consistent(r) && r.want == StatusLine && r.res.Some? && r.res.value.content == BLANK
    ensures Handle(r, STATUS_LINE) == Update(Extended(r), OK_CONTENT, HeaderLine)
  {
    hide ParseStatusLine;
    TwoHundred();
    ParseOfStatusLine(BLANK, "1", "200", "OK");
    assert "1" + " " + "200" + " " + "OK" == STATUS_LINE;
  }

  lemma TwoHundred()
    ensures Stoi("200", 10) == Ok(200)
  {
    assert Decimal(200) == Decimal(20) + "0" && Decimal(20) == Decimal(2) + "0" && Decimal(2) == "2";
    assert "2" + "0" + "0" == "200";
    StoiOfDecimal(200);
  }

  lemma FieldRead(r: Reader, key: string, value: string)
    requires Consistent(r) && r.timer.armed && r.want == HeaderLine && ':' !in key && Trimmed(value)
    ensures Handle(r, key + ":" + value) ==
            Update(r, AddHeader(r.res.value.content, Make(key, value)), HeaderLine)
  {
    hide ParseHeaderLine;
    OpenExtended(r);
    ParseOfHeaderLine(key, "", value, "");
    assert key + ":" + ("" + value + "") == key + ":" + value;
  }

  lemma EndRead(r: Reader)
    requires Consistent(r) && r.timer.armed && r.want == HeaderLine
    ensures Handle(r, "") == OnHeadersEnd(r)
  {
    OpenExtended(r);
  }

  lemma ChunkedFraming()
    ensures BodyReadOf([Make("Transfer-Encoding", "chunked")]) == InChunks
  {
    var h := Make("Transfer-Encoding", "chunked");
    assert |h.key| == 17 && |NormalizeKey("Content-Length")| == 14;
    assert OccursAt("chunked", "chunked", 0);
    assert [h][1..] == [];
    assert HeaderValue([h], "Content-Length") == None;
  }

  lemma EmptyFraming()
    ensures BodyReadOf([Make("Content-Length", "0")]) == Counted(0)
  {
    StoiOfDecimal(0);
    assert Decimal(0) == "0";
  }

  /** The response to attempt 0, with its status line and these headers read. */
  function ReadingHeader(r: Reader, headers: seq<Header>): Reader {
    r.(res := Some(Attempt(0, OK_CONTENT.(headers := headers), false)), want := HeaderLine)
  }

  predicate Waiting(r: Reader) {
    Consistent(r) && r.timer.armed && r.want == StatusLine && r.res == Some(Attempt(0, BLANK, false))
  }

  /** A status line and one header line. */
  lemma HeadRead(r: Reader, key: string, value: string, line: string)
    requires Waiting(r) && ':' !in key && Trimmed(value) && line == key + ":" + value
    ensures var r1, r2 := ReadingHeader(r, []), ReadingHeader(r, [Make(key, value)]);
            && Consistent(r1) && Consistent(r2)
            && Handle(r, STATUS_LINE) == r1 && Handle(r1, line) == r2 && Handle(r2, "") == OnHeadersEnd(r2)
  {
    hide Handle;
    hide OnHeadersEnd;
    OpenExtended(r);
    StatusRead(r);
    FieldRead(ReadingHeader(r, []), key, value);
    assert [] + [Make(key, value)] == [Make(key, value)];
    EndRead(ReadingHeader(r, [Make(key, value)]));
  }

  lemma ChunkedHeadRead(r: Reader)
    requires Waiting(r)
    ensures var r1, r2 := ReadingHeader(r, []), ReadingHeader(r, [Make("Transfer-Encoding", "chunked")]);
            var r3 := r2.(chunked := true, want := ChunkSizeLine);
            && Consistent(r1) && Consistent(r2) && Consistent(r3) && Handle(r, STATUS_LINE) == r1
            && Handle(r1, CHUNKED_LINE) == r2 && Handle(r2, "") == r3
  {
    hide Handle;
    assert "Transfer-Encoding" + ":" + "chunked" == CHUNKED_LINE;
    HeadRead(r, "Transfer-Encoding", "chunked", CHUNKED_LINE);
    ChunkedFraming();
  }

  /** A response with an empty body, up to where the body is read. */
  lemma EmptyHeadRead(r: Reader)
    requires Waiting(r)
    ensures var r1, r2 := ReadingHeader(r, []), ReadingHeader(r, [Make("Content-Length", "0")]);
            var r3 := r2.(chunked := false, want := BodyBytes(0));
            && Consistent(r1) && Consistent(r2) && Consistent(r3) && Handle(r, STATUS_LINE) == r1
            && Handle(r1, EMPTY_LINE) == r2 && Handle(r2, "") == r3
  {
    hide Handle;
    assert "Content-Length" + ":" + "0" == EMPTY_LINE;
    HeadRead(r, "Content-Length", "0", EMPTY_LINE);
    EmptyFraming();
  }

  /** A chunked response, lost where the first chunk size is read, with the request sent. */
  const LOST_AT_CHUNK_SIZE: seq<Event> := [
    Write(0, BLANK), Sent, Text(STATUS_LINE), Text(CHUNKED_LINE), Text(""), Disconnect("lost")]

  const WRITTEN := Attach(CONNECTED, 0, BLANK)
  const CHUNKED_HEADERS := [Make("Transfer-Encoding", "chunked")]
  const EMPTY_HEADERS := [Make("Content-Length", "0")]

  lemma WriteSteps()
    ensures var sent := WriteDone(WRITTEN);
            && Leads(CONNECTED, Write(0, BLANK), WRITTEN) && Waiting(WRITTEN) && !WRITTEN.crashed && WRITTEN.writes > 0
            && Leads(WRITTEN, Sent, sent) && Waiting(sent) && !sent.crashed && sent.writes == 0
  {
  }

  /** The attempt is never reported on, whatever happens after that. */
  lemma LostAtChunkSize()
    ensures AllAllowed(CONNECTED, LOST_AT_CHUNK_SIZE)
    ensures var end := AfterAll(CONNECTED, LOST_AT_CHUNK_SIZE);
            Consistent(end) && Pending(end) == [0] && NeverSettled(end)
  {
    hide STATUS_LINE;
    hide CHUNKED_LINE;
    hide EMPTY_LINE;
    hide OK_CONTENT;
    var es, r2 := LOST_AT_CHUNK_SIZE, WriteDone(WRITTEN);
    var r3, r4 := ReadingHeader(r2, []), ReadingHeader(r2, CHUNKED_HEADERS);
    var r5 := r4.(chunked := true, want := ChunkSizeLine);
    var r6 := Disconnected(r5, "lost");
    WriteSteps();
    ChunkedHeadSteps(r2);
    LostSteps(r5);
    hide *;
    AlongPath([CONNECTED, WRITTEN, r2, r3, r4, r5, r6], es);
  }

  lemma ChunkedHeadSteps(r: Reader)
    requires Waiting(r) && !r.crashed
    ensures var r1, r2 := ReadingHeader(r, []), ReadingHeader(r, CHUNKED_HEADERS);
            && Leads(r, Text(STATUS_LINE), r1) && Leads(r1, Text(CHUNKED_LINE), r2)
            && Leads(r2, Text(""), r2.(chunked := true, want := ChunkSizeLine))
  {
    hide STATUS_LINE;
    hide CHUNKED_LINE;
    hide EMPTY_LINE;
    hide OK_CONTENT;
    hide Handle;
    ChunkedHeadRead(r);
  }

  lemma LostSteps(r: Reader)
    requires Consistent(r) && !r.crashed && r.want == ChunkSizeLine && r.writes == 0 && r.timer == Timer(true, 0)
    requires !r.closed && Pending(r) == [0]
    ensures var next := Disconnected(r, "lost");
            && Leads(r, Disconnect("lost"), next) && Pending(next) == [0] && NeverSettled(next)
  {
    DisconnectSettlesIff(r, "lost");
    hide NeverSettled;
  }

  /** A response without a body that is complete before its request is sent, and the write fails. */
  const ANSWERED_EARLY: seq<Event> := [
    Write(0, BLANK), Text(STATUS_LINE), Text(EMPTY_LINE), Text(""), Text(""), WriteError("reset")]

  lemma AnsweredEarlyCrashes()
    ensures AllAllowed(CONNECTED, ANSWERED_EARLY) && AfterAll(CONNECTED, ANSWERED_EARLY).crashed
  {
    hide STATUS_LINE;
    hide CHUNKED_LINE;
    hide EMPTY_LINE;
    hide OK_CONTENT;
    hide Handle;
    hide After;
    var es := ANSWERED_EARLY;
    var r2, r3 := ReadingHeader(WRITTEN, []), ReadingHeader(WRITTEN, EMPTY_HEADERS);
    var r4 := r3.(chunked := false, want := BodyBytes(0));
    var r5 := Handle(r4, "");
    WriteSteps();
    EmptyHeadSteps(WRITTEN);
    EmptyBodySteps(r4);
    var r6 := After(r5, WriteError("reset"));
    hide *;
    AlongPath([CONNECTED, WRITTEN, r2, r3, r4, r5, r6], es);
  }

  lemma EmptyHeadSteps(r: Reader)
    requires Waiting(r) && !r.crashed
    ensures var r1, r2 := ReadingHeader(r, []), ReadingHeader(r, EMPTY_HEADERS);
            && Leads(r, Text(STATUS_LINE), r1) && Leads(r1, Text(EMPTY_LINE), r2)
            && Leads(r2, Text(""), r2.(chunked := false, want := BodyBytes(0)))
  {
    hide STATUS_LINE;
    hide CHUNKED_LINE;
    hide EMPTY_LINE;
    hide OK_CONTENT;
    hide Handle;
    EmptyHeadRead(r);
  }

  /** The response is complete, and the write that is still outstanding fails. */
  lemma EmptyBodySteps(r: Reader)
    requires Consistent(r) && r.want == BodyBytes(0) && r.writes > 0 && !r.crashed
    ensures Leads(r, Text(""), Handle(r, ""))
    ensures Consistent(Handle(r, "")) && Allowed(Handle(r, ""), WriteError("reset"))
    ensures var next := After(Handle(r, ""), WriteError("reset"));
            Leads(Handle(r, ""), WriteError("reset"), next) && next.crashed
  {
    EmptyBodyRead(r);
    AfterConsistent(r, Text(""));
    hide Handle;
    AfterConsistent(Handle(r, ""), WriteError("reset"));
  }

  lemma EmptyBodyRead(r: Reader)
    requires Consistent(r) && r.want == BodyBytes(0)
    ensures Handle(r, "").res == None && Handle(r, "").writes == r.writes && Handle(r, "").crashed == r.crashed
  {
    hide WithBody;
    hide HeaderValue;
  }
}
