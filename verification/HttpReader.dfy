/**
 * The response reader of include/net/asio/http/connection.h as a state machine: each function
 * is the callback of one read, and the state says which operations are outstanding.
 */
module HttpReader {
  import opened Prelude
  import opened Text
  import opened Numbers
  import opened Header
  import opened Message
  import opened Response
  import opened ReadBuffer

  /** An outstanding read, or none. */
  datatype Want =
    | Nothing
    | StatusLine
    | HeaderLine
    | ChunkSizeLine
    | LastLine
    | ChunkBytes(n: nat)
    | BodyBytes(n: nat)

  /** The response being filled (`res_`); `ready` when the outcome of this attempt was reported. */
  datatype Attempt = Attempt(id: nat, content: Content, ready: bool)

  /**
   * What a callback does to the outside: pool calls, and reports to the current completion of
   * the response, in order. `Settle` or `Fail` is the first report for an attempt. `LateSettle`
   * or `LateFail` is a report after that: it settles the completion that the response has got
   * since, if it has got one.
   */
  datatype Call =
    | Release
    | Remove
    | Settle(id: nat, content: Content)
    | Fail(id: nat, why: string)
    | LateSettle(id: nat, content: Content)
    | LateFail(id: nat, why: string)

  /** The stall timer runs; and it has run out, with callbacks queued that cannot be cancelled. */
  datatype Timer = Timer(armed: bool, due: nat)

  /**
   * `want` is the outstanding read, which a close cuts short but does not undo. `writes` counts
   * the outstanding writes. `threw` is set when a callback was left by throwing, and `crashed`
   * when the error callback of a write dereferenced a null `res_`.
   */
  datatype Reader = Reader(
    want: Want,
    chunked: bool,
    res: Option<Attempt>,
    writes: nat,
    timer: Timer,
    closed: bool,
    threw: bool,
    crashed: bool,
    attached: seq<nat>,
    calls: seq<Call>)

  /** The state after `post_connect`. */
  const CONNECTED := Reader(StatusLine, false, None, 0, Timer(true, 0), false, false, false, [], [])

  predicate MidResponse(want: Want) {
    want != Nothing && want != StatusLine
  }

  predicate Consistent(r: Reader) {
    && (MidResponse(r.want) ==> r.res.Some?)
    && (r.want == ChunkSizeLine || r.want == LastLine || r.want.ChunkBytes? ==> r.chunked)
    && (r.want.BodyBytes? ==> !r.chunked)
    && (r.threw ==> r.want == Nothing)
    && (r.want == Nothing ==> r.closed || r.threw)
    && (r.res.Some? && r.res.value.ready ==> r.closed)
    && (!r.closed ==> r.timer.armed || r.timer.due > 0)
  }

  function ReadOf(want: Want): Option<Read> {
    match want
    case Nothing => None
    case ChunkBytes(n) => Some(Exactly(n))
    case BodyBytes(n) => Some(Exactly(n))
    case _ => Some(Delimited(CRLF))
  }

  /** `write_request`: the response becomes the current one, and its request is being sent. */
  function Attach(r: Reader, id: nat, content: Content): Reader {
    r.(res := Some(Attempt(id, content, false)), writes := r.writes + 1,
       timer := r.timer.(armed := true), attached := r.attached + [id])
  }

  /** The outstanding read has completed, and its callback runs. */
  function ReadDone(r: Reader): Reader {
    r.(want := Nothing)
  }

  /** `close`: only the first call stops the timer, removes the connection and closes the socket. */
  function Close(r: Reader): Reader {
    if r.closed then r else r.(closed := true, timer := r.timer.(armed := false), calls := r.calls + [Remove])
  }

  /** Reports a failure to the current response, if there is one. */
  function FailCurrent(r: Reader, why: string): Reader {
    match r.res
    case Some(a) => r.(res := Some(a.(ready := true)), calls := r.calls + [Failure(a, why)])
    case None => r
  }

  function Failure(a: Attempt, why: string): Call {
    if a.ready then LateFail(a.id, why) else Fail(a.id, why)
  }

  function Settlement(id: nat, ready: bool, content: Content): Call {
    if ready then LateSettle(id, content) else Settle(id, content)
  }

  function Throw(r: Reader): Reader {
    r.(want := Nothing, threw := true)
  }

  function Update(r: Reader, content: Content, want: Want): Reader
    requires r.res.Some?
  {
    r.(res := Some(r.res.value.(content := content)), want := want)
  }

  /** `extract_next_body_chunk`: the response is complete. */
  function Extract(r: Reader, data: string): Reader
    requires r.res.Some?
  {
    var a := r.res.value;
    var content := if r.chunked then a.content else WithBody(a.content, data);
    var settle := Settlement(a.id, a.ready, content);
    if HeaderValue(content.headers, "Connection") == Some("close") then
      Close(ReadDone(r).(res := None, calls := r.calls + [settle]))
    else
      r.(res := None, want := StatusLine, calls := r.calls + [Release] + [settle])
  }

  function OnStatusLine(r: Reader, line: string): Reader {
    match r.res
    case None => Close(ReadDone(r))
    case Some(a) =>
      var (e, content) := ParseStatusLine(a.content, line);
      if e.Ok? then Update(r, content, HeaderLine) else Throw(Update(r, content, Nothing))
  }

  function OnHeaderLine(r: Reader, line: string): Reader
    requires r.res.Some?
  {
    if line == "" then OnHeadersEnd(r)
    else
      match ParseHeaderLine(line)
      case Ok(h) => Update(r, AddHeader(r.res.value.content, h), HeaderLine)
      case Thrown(_) => Throw(r)
  }

  /** How the body is read: a number of bytes, chunks, or not at all. */
  datatype BodyRead = Counted(bytes: nat) | InChunks | BadLength | Unstated(why: string)

  /** Content-Length decides first, then Transfer-Encoding. */
  function BodyReadOf(headers: seq<Header>): BodyRead {
    match HeaderValue(headers, "Content-Length")
    case Some(length) =>
      (match Stoi(length, 10)
       case Ok(n) => Counted(ToSize(n))
       case Thrown(_) => BadLength)
    case None =>
      match HeaderValue(headers, "Transfer-Encoding")
      case Some(coding) => if Find(coding, "chunked", 0).Some? then InChunks else Unstated("no content-length or TE")
      case None => Unstated("header Transfer-Encoding not found")
  }

  /** The empty line: on to the body, if the headers tell how to read it. */
  function OnHeadersEnd(r: Reader): Reader
    requires r.res.Some?
  {
    match BodyReadOf(r.res.value.content.headers)
    case Counted(bytes) => r.(chunked := false, want := BodyBytes(bytes))
    case InChunks => r.(chunked := true, want := ChunkSizeLine)
    case BadLength => Throw(r)
    case Unstated(why) => Unframed(r, why)
  }

  /** Headers that do not tell where the body ends: close, then fail. */
  function Unframed(r: Reader, why: string): Reader {
    FailCurrent(Close(ReadDone(r)), why)
  }

  function OnChunkSizeLine(r: Reader, line: string): Reader {
    match Stoi(line, 16)
    case Thrown(_) => Throw(r)
    case Ok(n) =>
      var size := ToSize(n);
      r.(want := if size > 0 then ChunkBytes(ToSize(size + 2)) else LastLine)
  }

  /** `data.substr(0, data.size() - 2)`, where the subtraction wraps around. */
  function WithoutLineEnd(data: string): string {
    var n := ToSize(|data| - 2);
    if n <= |data| then data[..n] else data
  }

  function OnChunkBytes(r: Reader, data: string): Reader
    requires r.res.Some?
  {
    var content := r.res.value.content;
    Update(r, content.(body := content.body + WithoutLineEnd(data)), ChunkSizeLine)
  }

  /** A read callback extends the timer, except for a status line without a response. */
  function Extended(r: Reader): Reader {
    if r.want == StatusLine && r.res.None? then r else r.(timer := r.timer.(armed := true))
  }

  /** The callback of the outstanding read, given the text it read. */
  function Handle(r: Reader, text: string): Reader
    requires Consistent(r) && r.want != Nothing
  {
    Continue(Extended(r), text)
  }

  function Continue(r: Reader, text: string): Reader
    requires Consistent(r) && r.want != Nothing
  {
    match r.want
    case StatusLine => OnStatusLine(r, text)
    case HeaderLine => OnHeaderLine(r, text)
    case ChunkSizeLine => OnChunkSizeLine(r, text)
    case LastLine => Extract(r, "")
    case ChunkBytes(_) => OnChunkBytes(r, text)
    case BodyBytes(_) => Extract(r, text)
  }

  /** For a timer that runs this makes no difference. */
  lemma OpenExtended(r: Reader)
    requires r.timer.armed
    ensures Extended(r) == r
  {
  }

  lemma HandleConsistent(r: Reader, text: string)
    requires Consistent(r) && r.want != Nothing
    ensures Consistent(Handle(r, text))
  {
    hide ParseStatusLine;
    hide ParseHeaderLine;
    hide BodyReadOf;
    hide Stoi;
    hide Extract;
    hide Unframed;
    var x := Extended(r);
    assert Consistent(x);
    hide Extended;
    if x.want == LastLine {
      ExtractConsistent(x, "");
    } else if x.want.BodyBytes? {
      ExtractConsistent(x, text);
    } else if x.want == HeaderLine && BodyReadOf(x.res.value.content.headers).Unstated? {
      UnframedConsistent(x, BodyReadOf(x.res.value.content.headers).why);
    }
  }

  lemma ExtractConsistent(r: Reader, data: string)
    requires Consistent(r) && r.res.Some? && !r.threw
    ensures Consistent(Extract(r, data))
  {
    hide HeaderValue;
    hide WithBody;
  }

  lemma UnframedConsistent(r: Reader, why: string)
    requires Consistent(r)
    ensures Consistent(Unframed(r, why))
  {
  }

  /**
   * The outstanding read fails: close first, if that has not happened yet, then its error
   * callback, which the two reads between chunks do not have.
   */
  function Disconnected(r: Reader, why: string): Reader {
    var closed := Close(ReadDone(r));
    if r.want == Nothing || r.want == ChunkSizeLine || r.want == LastLine then closed else FailCurrent(closed, why)
  }

  /** The stall timer runs out. */
  function Elapsed(r: Reader): Reader {
    r.(timer := Timer(false, r.timer.due + 1))
  }

  /** The callback of the stall timer: the attempt fails whatever is outstanding. */
  function TimedOut(r: Reader, why: string): Reader
    requires r.timer.due > 0
  {
    FailCurrent(Close(Stopped(r)), why)
  }

  /** Dropping the timer object cancels the wait that may have been started since. */
  function Stopped(r: Reader): Reader
    requires r.timer.due > 0
  {
    r.(timer := Timer(false, r.timer.due - 1))
  }

  /** A write completes, and extends the stall timer even after a close. */
  function WriteDone(r: Reader): Reader
    requires r.writes > 0
  {
    r.(writes := r.writes - 1, timer := r.timer.(armed := true))
  }

  /** A write fails: its callback uses `res_` without a check, and only then closes. */
  function WriteFailed(r: Reader, why: string): Reader
    requires r.writes > 0
  {
    var reported := r.(writes := r.writes - 1);
    if r.res.None? then reported.(crashed := true) else Close(FailCurrent(reported, why))
  }

  lemma HeaderLineIgnoresWrites(r: Reader, line: string, writes: nat)
    requires r.res.Some?
    ensures OnHeaderLine(r.(writes := writes), line) == OnHeaderLine(r, line).(writes := writes)
  {
    hide ParseHeaderLine;
    hide OnHeadersEnd;
    HeadersIgnoreWrites(r, writes);
  }

  lemma ChunksIgnoreWrites(r: Reader, text: string, writes: nat)
    requires r.res.Some?
    ensures OnChunkSizeLine(r.(writes := writes), text) == OnChunkSizeLine(r, text).(writes := writes)
    ensures OnChunkBytes(r.(writes := writes), text) == OnChunkBytes(r, text).(writes := writes)
  {
    hide Stoi;
    hide WithoutLineEnd;
  }

  /** What arrives does not depend on the writes that are outstanding. */
  lemma ReadingIgnoresWrites(r: Reader, text: string, writes: nat)
    requires Consistent(r) && r.want != Nothing
    ensures Handle(r.(writes := writes), text) == Handle(r, text).(writes := writes)
  {
    hide Extract;
    hide OnStatusLine;
    hide OnHeaderLine;
    hide OnChunkSizeLine;
    hide OnChunkBytes;
    var x := Extended(r);
    assert Extended(r.(writes := writes)) == x.(writes := writes);
    hide Extended;
    match x.want {
      case StatusLine => StatusIgnoresWrites(x, text, writes);
      case HeaderLine => HeaderLineIgnoresWrites(x, text, writes);
      case ChunkSizeLine => ChunksIgnoreWrites(x, text, writes);
      case LastLine => ExtractIgnoresWrites(x, "", writes);
      case ChunkBytes(_) => ChunksIgnoreWrites(x, text, writes);
      case BodyBytes(_) => ExtractIgnoresWrites(x, text, writes);
    }
  }

  lemma StatusIgnoresWrites(r: Reader, line: string, writes: nat)
    ensures OnStatusLine(r.(writes := writes), line) == OnStatusLine(r, line).(writes := writes)
  {
    hide ParseStatusLine;
    if r.res.None? {
      hide Throw;
      hide Update;
      CloseIgnoresWrites(ReadDone(r), writes);
    } else {
      hide Close;
    }
  }

  lemma HeadersIgnoreWrites(r: Reader, writes: nat)
    requires r.res.Some?
    ensures OnHeadersEnd(r.(writes := writes)) == OnHeadersEnd(r).(writes := writes)
  {
    hide BodyReadOf;
    hide Unframed;
    match BodyReadOf(r.res.value.content.headers) {
      case Unstated(why) => UnframedIgnoresWrites(r, why, writes);
      case _ =>
    }
  }

  lemma UnframedIgnoresWrites(r: Reader, why: string, writes: nat)
    ensures Unframed(r.(writes := writes), why) == Unframed(r, why).(writes := writes)
  {
    hide Close;
    hide FailCurrent;
    CloseIgnoresWrites(ReadDone(r), writes);
    FailIgnoresWrites(Close(ReadDone(r)), why, writes);
  }

  lemma ExtractIgnoresWrites(r: Reader, data: string, writes: nat)
    requires r.res.Some?
    ensures Extract(r.(writes := writes), data) == Extract(r, data).(writes := writes)
  {
    hide HeaderValue;
    hide WithBody;
    hide Close;
    var a := r.res.value;
    var content := if r.chunked then a.content else WithBody(a.content, data);
    var settle := Settlement(a.id, a.ready, content);
    hide Settlement;
    CloseIgnoresWrites(ReadDone(r).(res := None, calls := r.calls + [settle]), writes);
  }

  lemma CloseIgnoresWrites(r: Reader, writes: nat)
    ensures Close(r.(writes := writes)) == Close(r).(writes := writes)
  {
  }

  lemma FailIgnoresWrites(r: Reader, why: string, writes: nat)
    ensures FailCurrent(r.(writes := writes), why) == FailCurrent(r, why).(writes := writes)
  {
  }

  // ---- Everything that can happen to a connection, and what every run keeps. ----

  /** `Overwritten`: another connection with the same response object changes its content. */
  datatype Event =
    | Write(id: nat, content: Content)
    | Text(text: string)
    | Disconnect(why: string)
    | Elapse
    | Timeout(why: string)
    | Sent
    | WriteError(why: string)
    | Overwritten(content: Content)

  /**
   * A request is written only to a connection without a current response. What is outstanding
   * may complete or fail at any time, after a close too: the event loop may have completed it
   * before, and text that was read ahead is still there. After a crash the program has no
   * defined behaviour.
   */
  predicate Allowed(r: Reader, e: Event) {
    !r.crashed &&
    match e
    case Write(_, _) => r.res.None?
    case Text(_) => r.want != Nothing
    case Disconnect(_) => r.want != Nothing
    case Elapse => r.timer.armed
    case Timeout(_) => r.timer.due > 0
    case Sent => r.writes > 0
    case WriteError(_) => r.writes > 0
    case Overwritten(_) => r.res.Some?
  }

  function After(r: Reader, e: Event): Reader
    requires Consistent(r) && Allowed(r, e)
  {
    match e
    case Write(id, content) => Attach(r, id, content)
    case Text(text) => Handle(r, text)
    case Disconnect(why) => Disconnected(r, why)
    case Elapse => Elapsed(r)
    case Timeout(why) => TimedOut(r, why)
    case Sent => WriteDone(r)
    case WriteError(why) => WriteFailed(r, why)
    case Overwritten(content) => r.(res := Some(r.res.value.(content := content)))
  }

  /** The attempts whose completion was settled, in order. */
  function SettledIds(calls: seq<Call>): seq<nat> {
    if calls == [] then []
    else
      SettledIds(calls[..|calls| - 1]) +
      match calls[|calls| - 1]
      case Settle(id, _) => [id]
      case Fail(id, _) => [id]
      case _ => []
  }

  function RemoveCount(calls: seq<Call>): nat {
    if calls == [] then 0
    else RemoveCount(calls[..|calls| - 1]) + if calls[|calls| - 1] == Remove then 1 else 0
  }

  function Pending(r: Reader): seq<nat> {
    if r.res.Some? && !r.res.value.ready then [r.res.value.id] else []
  }

  /** Every attempt is settled once, in the order of writing, or is the one in progress. */
  predicate Accounted(r: Reader) {
    && r.attached == SettledIds(r.calls) + Pending(r)
    && RemoveCount(r.calls) == (if r.closed then 1 else 0)
  }

  lemma CallsAppend(calls: seq<Call>, call: Call)
    ensures SettledIds(calls + [call]) == SettledIds(calls) + SettledIds([call])
    ensures RemoveCount(calls + [call]) == RemoveCount(calls) + RemoveCount([call])
  {
    assert (calls + [call])[..|calls|] == calls && [call][..0] == [];
  }

  lemma CloseAccounted(r: Reader)
    requires Accounted(r)
    ensures Accounted(Close(r))
  {
    CallsAppend(r.calls, Remove);
    OneCall(Remove);
  }

  lemma FailAccounted(r: Reader, why: string)
    requires Accounted(r)
    ensures Accounted(FailCurrent(r, why))
  {
    hide SettledIds;
    hide RemoveCount;
    if r.res.Some? {
      var call := Failure(r.res.value, why);
      CallsAppend(r.calls, call);
      OneCall(call);
    }
  }

  lemma ExtractAccounted(r: Reader, data: string)
    requires Accounted(r) && r.res.Some?
    ensures Accounted(Extract(r, data))
  {
    hide HeaderValue;
    hide WithBody;
    hide SettledIds;
    hide RemoveCount;
    var a := r.res.value;
    var content := if r.chunked then a.content else WithBody(a.content, data);
    var call := Settlement(a.id, a.ready, content);
    OneCall(call);
    OneCall(Release);
    CallsAppend(r.calls, call);
    CallsAppend(r.calls, Release);
    CallsAppend(r.calls + [Release], call);
    CloseAccounted(ReadDone(r).(res := None, calls := r.calls + [call]));
  }

  lemma OneCall(call: Call)
    ensures SettledIds([call]) == match call case Settle(id, _) => [id] case Fail(id, _) => [id] case _ => []
    ensures RemoveCount([call]) == if call == Remove then 1 else 0
  {
    assert [call][..0] == [];
  }

  lemma AttachKeeps(r: Reader, id: nat, content: Content)
    requires Consistent(r) && Accounted(r) && r.res.None?
    ensures Consistent(Attach(r, id, content)) && Accounted(Attach(r, id, content))
  {
    hide SettledIds;
    hide RemoveCount;
  }

  lemma AfterConsistent(r: Reader, e: Event)
    requires Consistent(r) && Allowed(r, e)
    ensures Consistent(After(r, e))
  {
    if e.Text? {
      HandleConsistent(r, e.text);
    }
  }

  lemma AfterAccounted(r: Reader, e: Event)
    requires Consistent(r) && Accounted(r) && Allowed(r, e)
    ensures Accounted(After(r, e))
  {
    hide SettledIds;
    hide RemoveCount;
    hide Handle;
    match e {
      case Write(id, content) =>
        AttachKeeps(r, id, content);
      case Text(text) =>
        HandleAccounted(r, text);
      case Disconnect(why) =>
        CloseAccounted(ReadDone(r));
        FailAccounted(Close(ReadDone(r)), why);
      case Elapse =>
      case Timeout(why) =>
        CloseAccounted(Stopped(r));
        FailAccounted(Close(Stopped(r)), why);
      case Sent =>
      case WriteError(why) =>
        var reported := r.(writes := r.writes - 1);
        FailAccounted(reported, why);
        CloseAccounted(FailCurrent(reported, why));
      case Overwritten(_) =>
    }
  }

  lemma HandleAccounted(r: Reader, text: string)
    requires Consistent(r) && Accounted(r) && r.want != Nothing
    ensures Accounted(Handle(r, text))
  {
    hide SettledIds;
    hide RemoveCount;
    hide Extract;
    hide ParseStatusLine;
    hide ParseHeaderLine;
    hide Stoi;
    hide HeaderValue;
    hide BodyReadOf;
    var x := Extended(r);
    CloseAccounted(ReadDone(x));
    if x.want == HeaderLine && BodyReadOf(x.res.value.content.headers).Unstated? {
      FailAccounted(Close(ReadDone(x)), BodyReadOf(x.res.value.content.headers).why);
    } else if x.want == LastLine {
      ExtractAccounted(x, "");
    } else if x.want.BodyBytes? {
      ExtractAccounted(x, text);
    }
  }

  predicate AllAllowed(r: Reader, events: seq<Event>)
    requires Consistent(r)
    decreases |events|
  {
    events == [] ||
    (Allowed(r, events[0]) && (AfterConsistent(r, events[0]); AllAllowed(After(r, events[0]), events[1..])))
  }

  function AfterAll(r: Reader, events: seq<Event>): Reader
    requires Consistent(r) && AllAllowed(r, events)
    decreases |events|
  {
    if events == [] then r
    else
      AfterConsistent(r, events[0]);
      AfterAll(After(r, events[0]), events[1..])
  }

  /**
   * On every run, with any bytes, errors and timeouts before and after a close: the completions
   * settled so far are those of the requests written so far, one each and in order, short of at
   * most the current one; and the connection is removed from its pool once if it was closed,
   * else never.
   */
  lemma {:induction false} SettledOnceInOrder(r: Reader, events: seq<Event>)
    requires Consistent(r) && Accounted(r) && AllAllowed(r, events)
    ensures Accounted(AfterAll(r, events))
    decreases |events|
  {
    hide Accounted;
    hide After;
    if events != [] {
      AfterAccounted(r, events[0]);
      AfterConsistent(r, events[0]);
      SettledOnceInOrder(After(r, events[0]), events[1..]);
    }
  }

  lemma ConnectedAccounted()
    ensures Consistent(CONNECTED) && Accounted(CONNECTED)
  {
  }

  // ---- What failures report. ----

  /** The call with which a close reaches the pool, unless there was one before. */
  function Removal(r: Reader): seq<Call> {
    if r.closed then [] else [Remove]
  }

  /** The report of a failure on the current response, late if there was a report on it before. */
  function Reported(r: Reader, why: string): seq<Call> {
    match r.res
    case None => []
    case Some(Attempt(id, _, false)) => [Fail(id, why)]
    case Some(Attempt(id, _, true)) => [LateFail(id, why)]
  }

  /**
   * A lost connection is closed. It fails its response if a status line, a header line, the data
   * of a chunk or a counted body was being read, and says nothing to it where a chunk size or the
   * line after the last chunk was.
   */
  lemma DisconnectReports(r: Reader, why: string)
    requires r.want != Nothing
    ensures var end := Disconnected(r, why);
            && end.closed && end.want == Nothing && end.writes == r.writes && end.attached == r.attached
            && end.calls == r.calls + Removal(r) +
               match r.want
               case StatusLine => Reported(r, why)
               case HeaderLine => Reported(r, why)
               case ChunkBytes(_) => Reported(r, why)
               case BodyBytes(_) => Reported(r, why)
               case ChunkSizeLine => []
               case LastLine => []
  {
    CallsOfFailure(r, why);
  }

  lemma CallsOfFailure(r: Reader, why: string)
    ensures FailCurrent(r, why).calls == r.calls + Reported(r, why)
    ensures Close(r).calls == r.calls + Removal(r) && r.calls + [] == r.calls
  {
  }

  /** The pending attempt of an open connection, written out. */
  lemma LostAttemptFails(r: Reader, why: string)
    requires Consistent(r) && !r.closed && r.want != Nothing && r.res.Some?
    ensures Pending(r) == [r.res.value.id]
    ensures Disconnected(r, why).calls == r.calls +
            if r.want == ChunkSizeLine || r.want == LastLine then [Remove] else [Remove, Fail(r.res.value.id, why)]
  {
    DisconnectReports(r, why);
    assert r.calls + [Remove] + [Fail(r.res.value.id, why)] == r.calls + [Remove, Fail(r.res.value.id, why)];
  }

  /** The stall timer's callback closes and then fails the response, whatever is being read. */
  lemma TimeoutReports(r: Reader, why: string)
    requires r.timer.due > 0
    ensures var end := TimedOut(r, why);
            && end.closed && end.want == r.want && end.writes == r.writes && !end.timer.armed
            && end.calls == r.calls + Removal(r) + Reported(r, why)
  {
    CallsOfFailure(Stopped(r), why);
    CallsOfFailure(Close(Stopped(r)), why);
  }

  /** A failed write fails the response and closes then, or crashes without a response. */
  lemma WriteErrorReports(r: Reader, why: string)
    requires r.writes > 0
    ensures var end := WriteFailed(r, why);
            && end.want == r.want && (end.crashed <==> r.crashed || r.res.None?)
            && (end.closed <==> r.closed || r.res.Some?)
            && end.calls == r.calls + Reported(r, why) + if r.res.Some? then Removal(r) else []
  {
    CallsOfFailure(r, why);
    CallsOfFailure(FailCurrent(r, why), why);
  }

  /** A read callback throws: a malformed status line, header line, Content-Length or chunk size. */
  predicate Malformed(r: Reader, text: string) {
    match r.want
    case StatusLine => r.res.Some? && ParseStatusLine(r.res.value.content, text).0.Thrown?
    case HeaderLine =>
      && (text != "" ==> ':' !in text)
      && (text == "" ==> r.res.Some? && BadLengthIn(r.res.value.content.headers))
    case ChunkSizeLine => Stoi(text, 16).Thrown?
    case _ => false
  }

  predicate BadLengthIn(headers: seq<Header>) {
    match HeaderValue(headers, "Content-Length") case Some(length) => Stoi(length, 10).Thrown? case None => false
  }

  /** An exception ends the reading. It closes nothing and reports nothing, so only the timer is left. */
  lemma ThrowsIffMalformed(r: Reader, text: string)
    requires Consistent(r) && r.want != Nothing && !r.threw
    ensures Handle(r, text).threw <==> Malformed(r, text)
    ensures Malformed(r, text) ==>
              var end := Handle(r, text);
              && end.want == Nothing && end.closed == r.closed && end.calls == r.calls
              && Pending(end) == Pending(r) && end.timer == Timer(true, r.timer.due)
  {
    hide ParseStatusLine;
    hide Stoi;
    hide HeaderValue;
    hide Find;
    hide Extract;
    hide Unframed;
    HeaderLineFails(text);
    hide ParseHeaderLine;
    var x := Extended(r);
    if x.want == LastLine {
      ExtractThrowsNot(x, "");
    } else if x.want.BodyBytes? {
      ExtractThrowsNot(x, text);
    } else if x.want == HeaderLine && BodyReadOf(x.res.value.content.headers).Unstated? {
      UnframedThrowsNot(x, BodyReadOf(x.res.value.content.headers).why);
    }
  }

  lemma ExtractThrowsNot(r: Reader, data: string)
    requires r.res.Some?
    ensures Extract(r, data).threw == r.threw
  {
    hide HeaderValue;
    hide WithBody;
  }

  lemma UnframedThrowsNot(r: Reader, why: string)
    ensures Unframed(r, why).threw == r.threw
  {
  }

  /** Headers that do not frame a body close the connection and fail the attempt, in the parser's words. */
  lemma UnframedFails(r: Reader)
    requires Consistent(r) && !r.closed && r.want == HeaderLine
    requires HeaderValue(r.res.value.content.headers, "Content-Length") == None
    ensures var coding, end := HeaderValue(r.res.value.content.headers, "Transfer-Encoding"), Handle(r, "");
            if coding.Some? && Occurs(coding.value, "chunked") then end.want == ChunkSizeLine && end.calls == r.calls
            else
              && end.want == Nothing && end.closed
              && end.calls == r.calls + [Remove, Fail(r.res.value.id,
                   if coding.Some? then "no content-length or TE" else "header Transfer-Encoding not found")]
  {
    var coding := HeaderValue(r.res.value.content.headers, "Transfer-Encoding");
    if coding.Some? {
      FindIsLeftmost(coding.value, "chunked", 0, Find(coding.value, "chunked", 0));
    }
    hide Find;
    hide HeaderValue;
    assert r.calls + [Remove] + [Fail(r.res.value.id, "")] == r.calls + [Remove, Fail(r.res.value.id, "")];
  }

  /** A Content-Length is read as an int and converted: a negative one asks for about 2^64 bytes. */
  lemma LengthAsks(r: Reader, n: int)
    requires Consistent(r) && r.want == HeaderLine
    requires var length := HeaderValue(r.res.value.content.headers, "Content-Length");
             length.Some? && Stoi(length.value, 10) == Ok(n)
    ensures Handle(r, "").want == BodyBytes(if n >= 0 then n as nat else (n + 0x1_0000_0000_0000_0000) as nat)
    ensures Handle(r, "").calls == r.calls && Handle(r, "").res == r.res
  {
    StoiInRange(HeaderValue(r.res.value.content.headers, "Content-Length").value, 10);
    hide Stoi;
    hide HeaderValue;
  }

  /** A chunk size is read as an int and converted: below -2 it asks for about 2^64 bytes. */
  lemma ChunkSizeAsks(r: Reader, line: string)
    requires Consistent(r) && r.want == ChunkSizeLine && Stoi(line, 16).Ok?
    ensures Handle(r, line).want ==
            var n := Stoi(line, 16).value;
            if n == 0 then LastLine
            else if n >= -2 then ChunkBytes((n + 2) as nat)
            else ChunkBytes((n + 2 + 0x1_0000_0000_0000_0000) as nat)
  {
    StoiInRange(line, 16);
    hide Stoi;
  }

  /** The two bytes behind a chunk are dropped; of fewer than two bytes, none is. */
  lemma ChunkAppends(r: Reader, data: string)
    requires Consistent(r) && r.want.ChunkBytes? && |data| < SIZE_LIMIT
    ensures var content, end := r.res.value.content, Handle(r, data);
            && end.want == ChunkSizeLine && end.calls == r.calls && end.res.Some?
            && end.res.value.content ==
               content.(body := content.body + if |data| < 2 then data else data[..|data| - 2])
  {
  }

  // ---- What is outstanding. ----

  /** The events that start the stall timer: a written request, a completed write, a read callback. */
  predicate StartsTimer(r: Reader, e: Event) {
    e.Write? || e.Sent? || (e.Text? && !(r.want == StatusLine && r.res.None?))
  }

  /** The events that stop it: it runs out, its callback runs, or the connection closes. */
  predicate StopsTimer(r: Reader, e: Event)
    requires Consistent(r) && Allowed(r, e)
  {
    e.Elapse? || e.Timeout? || After(r, e).closed != r.closed
  }

  /** The stall timer runs from an event that starts it, after a close too, up to one that stops it. */
  lemma TimerRuns(r: Reader, e: Event)
    requires Consistent(r) && Allowed(r, e)
    ensures After(r, e).timer.armed <==>
            !StopsTimer(r, e) && (StartsTimer(r, e) || r.timer.armed)
  {
    hide ParseStatusLine;
    hide ParseHeaderLine;
    hide BodyReadOf;
    hide Stoi;
    hide HeaderValue;
    hide WithBody;
  }

  /** The attempts written in a run. */
  function WrittenIn(events: seq<Event>): seq<nat> {
    if events == [] then [] else (if events[0].Write? then [events[0].id] else []) + WrittenIn(events[1..])
  }

  /** The writes of a run that were done or failed, and how often the timer ran out and was heard. */
  function WritesEnded(events: seq<Event>): nat {
    if events == [] then 0
    else (if events[0].Sent? || events[0].WriteError? then 1 else 0) + WritesEnded(events[1..])
  }

  function Elapses(events: seq<Event>): nat {
    if events == [] then 0 else (if events[0].Elapse? then 1 else 0) + Elapses(events[1..])
  }

  function Timeouts(events: seq<Event>): nat {
    if events == [] then 0 else (if events[0].Timeout? then 1 else 0) + Timeouts(events[1..])
  }

  /**
   * On every run: each request written is attached, in order; the writes outstanding are those
   * made and neither done nor failed; and the timer callbacks due are those queued and not run.
   */
  lemma {:induction false} OutstandingBalance(r: Reader, events: seq<Event>)
    requires Consistent(r) && AllAllowed(r, events)
    ensures var end := AfterAll(r, events);
            && end.attached == r.attached + WrittenIn(events)
            && end.writes + WritesEnded(events) == r.writes + |WrittenIn(events)|
            && end.timer.due + Timeouts(events) == r.timer.due + Elapses(events)
    decreases |events|
  {
    hide After;
    hide Allowed;
    if events == [] {
      assert r.attached + [] == r.attached;
    } else {
      var e, next := events[0], After(r, events[0]);
      AfterConsistent(r, e);
      OutstandingStep(r, e);
      hide Consistent;
      OutstandingBalance(next, events[1..]);
      var written := if e.Write? then [e.id] else [];
      assert r.attached + written + WrittenIn(events[1..]) == r.attached + (written + WrittenIn(events[1..]));
    }
  }

  lemma OutstandingStep(r: Reader, e: Event)
    requires Consistent(r) && Allowed(r, e)
    ensures var next := After(r, e);
            && next.attached == r.attached + (if e.Write? then [e.id] else [])
            && next.writes == r.writes + (if e.Write? then 1 else 0) - (if e.Sent? || e.WriteError? then 1 else 0)
            && next.timer.due == r.timer.due + (if e.Elapse? then 1 else 0) - (if e.Timeout? then 1 else 0)
  {
    hide Handle;
    if e.Text? {
      ReadingKeeps(r, e.text);
    }
    assert r.attached + [] == r.attached;
  }

  // ---- Attempts that are never settled. ----

  /** Something may still report on the attempt: the timer, a write, or a read. */
  predicate Reportable(r: Reader) {
    r.timer.armed || r.timer.due > 0 || r.writes > 0 || r.want != Nothing
  }

  /** The attempt in progress stays unsettled whatever happens. */
  ghost predicate NeverSettled(r: Reader)
    requires Consistent(r)
  {
    forall events: seq<Event> | AllAllowed(r, events) :: Pending(AfterAll(r, events)) == Pending(r) != []
  }

  lemma {:induction false} UnreportableStays(r: Reader, events: seq<Event>)
    requires Consistent(r) && r.closed && Pending(r) != [] && !Reportable(r) && AllAllowed(r, events)
    ensures Pending(AfterAll(r, events)) == Pending(r)
    decreases |events|
  {
    if events != [] {
      AfterConsistent(r, events[0]);
      UnreportableStays(After(r, events[0]), events[1..]);
    }
  }

  /** What is never settled is not settled by the next event, and never after it. */
  lemma NeverSettledNext(r: Reader, e: Event)
    requires Consistent(r) && Allowed(r, e) && NeverSettled(r)
    ensures Consistent(After(r, e)) && Pending(After(r, e)) == Pending(r) && NeverSettled(After(r, e))
  {
    hide After;
    AfterConsistent(r, e);
    var next := After(r, e);
    forall events: seq<Event> | AllAllowed(next, events) ensures Pending(AfterAll(next, events)) == Pending(r) != [] {
      assert ([e] + events)[1..] == events;
      assert AllAllowed(r, [e] + events) && AfterAll(r, [e] + events) == AfterAll(next, events);
    }
    assert AllAllowed(next, []) && AfterAll(next, []) == next;
  }

  /** An attempt on a closed connection stays unsettled for good exactly if nothing will report. */
  lemma {:induction false} NeverSettledIff(r: Reader)
    requires Consistent(r) && r.closed && !r.crashed && Pending(r) != []
    ensures NeverSettled(r) <==> !Reportable(r)
    decreases r.want != Nothing, r.timer.due == 0
  {
    if !Reportable(r) {
      forall events: seq<Event> | AllAllowed(r, events) ensures Pending(AfterAll(r, events)) == Pending(r) {
        UnreportableStays(r, events);
      }
    } else if NeverSettled(r) {
      hide NeverSettled;
      var e := Reporting(r);
      NeverSettledNext(r, e);
      NoSize();
      if e.Elapse? || (e.Text? && r.want == ChunkSizeLine) {
        NeverSettledIff(After(r, e));
      }
      assert false;
    }
  }

  /** The event that reports on the attempt, or that leads to the timer doing so. */
  function Reporting(r: Reader): Event {
    if r.timer.due > 0 then Timeout("")
    else if r.timer.armed then Elapse
    else if r.writes > 0 then WriteError("")
    else if r.want == ChunkSizeLine || r.want == LastLine then Text("")
    else Disconnect("")
  }

  lemma NoSize()
    ensures Stoi("", 16).Thrown?
  {
  }

  /**
   * A lost connection leaves the attempt it was working on unsettled for good if and only if it
   * is lost where a chunk size or the line after the last chunk is read and the request has
   * been sent: only an outstanding write still reports on that attempt, or a timer that had run
   * out before, or was started again after an earlier close.
   */
  lemma DisconnectSettlesIff(r: Reader, why: string)
    requires Consistent(r) && !r.crashed && r.want != Nothing && Pending(r) != []
    ensures Consistent(Disconnected(r, why))
    ensures NeverSettled(Disconnected(r, why)) <==>
            && (r.want == ChunkSizeLine || r.want == LastLine)
            && r.writes == 0 && r.timer.due == 0 && !(r.closed && r.timer.armed)
  {
    var end := Disconnected(r, why);
    AfterConsistent(r, Disconnect(why));
    if r.want == ChunkSizeLine || r.want == LastLine {
      NeverSettledIff(end);
    } else {
      assert AllAllowed(end, []) && AfterAll(end, []) == end;
    }
  }

  // ---- Writes that fail without a response to report to. ----

  /** At some step of the run a write fails while no response is current. */
  ghost predicate WriteFailsUnattended(r: Reader, events: seq<Event>)
    requires Consistent(r) && AllAllowed(r, events)
    decreases |events|
  {
    events != [] &&
    ((events[0].WriteError? && r.res.None?) ||
     (AfterConsistent(r, events[0]); WriteFailsUnattended(After(r, events[0]), events[1..])))
  }

  /** The null dereference happens on exactly the runs where a write fails unattended. */
  lemma {:induction false} CrashesIff(r: Reader, events: seq<Event>)
    requires Consistent(r) && !r.crashed && AllAllowed(r, events)
    ensures AfterAll(r, events).crashed <==> WriteFailsUnattended(r, events)
    decreases |events|
  {
    if events != [] {
      var e, next := events[0], After(r, events[0]);
      AfterConsistent(r, e);
      CrashStep(r, e);
      if next.crashed {
        assert events[1..] == [];
      } else {
        CrashesIff(next, events[1..]);
      }
    }
  }

  lemma CrashStep(r: Reader, e: Event)
    requires Consistent(r) && Allowed(r, e)
    ensures After(r, e).crashed <==> e.WriteError? && r.res.None?
  {
    if e.Text? {
      ReadingKeeps(r, e.text);
    }
  }

  /** A read callback changes neither the writes outstanding nor the timer callbacks due. */
  predicate SameOutstanding(r: Reader, next: Reader) {
    && next.writes == r.writes && next.crashed == r.crashed
    && next.attached == r.attached && next.timer.due == r.timer.due
  }

  lemma ReadingKeeps(r: Reader, text: string)
    requires Consistent(r) && r.want != Nothing
    ensures SameOutstanding(r, Handle(r, text))
  {
    hide ParseStatusLine;
    hide ParseHeaderLine;
    hide BodyReadOf;
    hide Stoi;
    hide Extract;
    hide Unframed;
    var x := Extended(r);
    if x.want == LastLine {
      ExtractKeeps(x, "");
    } else if x.want.BodyBytes? {
      ExtractKeeps(x, text);
    } else if x.want == HeaderLine && BodyReadOf(x.res.value.content.headers).Unstated? {
      UnframedKeeps(x, BodyReadOf(x.res.value.content.headers).why);
    }
  }

  lemma ExtractKeeps(r: Reader, data: string)
    requires r.res.Some?
    ensures SameOutstanding(r, Extract(r, data))
  {
    hide HeaderValue;
    hide WithBody;
  }

  lemma UnframedKeeps(r: Reader, why: string)
    ensures SameOutstanding(r, Unframed(r, why))
  {
  }

  /** An outstanding write has no response to report to. */
  predicate Exposed(r: Reader) {
    r.writes > 0 && r.res.None?
  }

  lemma CrashPossibleIff(r: Reader)
    requires Consistent(r)
    ensures (exists e :: Allowed(r, e) && After(r, e).crashed) <==> !r.crashed && Exposed(r)
  {
    if !r.crashed && Exposed(r) {
      assert Allowed(r, WriteError("")) && After(r, WriteError("")).crashed;
    }
    forall e | Allowed(r, e) ensures After(r, e).crashed <==> e.WriteError? && r.res.None? {
      CrashStep(r, e);
    }
  }

  /** No response is complete before its request, and every earlier one, has been sent. */
  ghost predicate AnsweredAfterSent(r: Reader, events: seq<Event>)
    requires Consistent(r) && AllAllowed(r, events)
    decreases |events|
  {
    events == [] ||
    (AfterConsistent(r, events[0]);
     && (r.res.Some? && After(r, events[0]).res.None? ==> r.writes == 0)
     && AnsweredAfterSent(After(r, events[0]), events[1..]))
  }

  /** At some point of the run an outstanding write has no response to report to. */
  ghost predicate EverExposed(r: Reader, events: seq<Event>)
    requires Consistent(r) && AllAllowed(r, events)
    decreases |events|
  {
    Exposed(r) ||
    (events != [] && (AfterConsistent(r, events[0]); EverExposed(After(r, events[0]), events[1..])))
  }

  /** That happens on exactly the runs where a response is complete before its request was sent. */
  lemma {:induction false} ExposedIffAnsweredEarly(r: Reader, events: seq<Event>)
    requires Consistent(r) && AllAllowed(r, events) && !Exposed(r)
    ensures EverExposed(r, events) <==> !AnsweredAfterSent(r, events)
    decreases |events|
  {
    if events != [] {
      var e, next := events[0], After(r, events[0]);
      AfterConsistent(r, e);
      if e.Text? {
        ReadingKeeps(r, e.text);
      }
      hide After;
      if !Exposed(next) {
        ExposedIffAnsweredEarly(next, events[1..]);
      }
    }
  }

  /** Without an early answer no write is ever left without a response, and nothing crashes. */
  lemma {:induction false} NoEarlyAnswerNoCrash(r: Reader, events: seq<Event>)
    requires Consistent(r) && AllAllowed(r, events) && AnsweredAfterSent(r, events)
    requires !r.crashed && !Exposed(r)
    ensures !AfterAll(r, events).crashed && !Exposed(AfterAll(r, events))
    decreases |events|
  {
    if events != [] {
      var e := events[0];
      AfterConsistent(r, e);
      CrashStep(r, e);
      if e.Text? {
        ReadingKeeps(r, e.text);
      }
      NoEarlyAnswerNoCrash(After(r, e), events[1..]);
    }
  }
}
