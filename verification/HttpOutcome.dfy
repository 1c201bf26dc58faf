/** How a callback of the response reader ends, as seen by the pool and by the response. */
module HttpOutcome {
  import opened Prelude
  import opened Message
  import opened Response
  import opened HttpReader

  /** The calls that a callback added. */
  function NewCalls(before: Reader, after: Reader): seq<Call>
    requires |before.calls| <= |after.calls|
  {
    after.calls[|before.calls|..]
  }

  /** The response is complete, or the attempt has failed. */
  predicate IsDone(call: Call) {
    call.Settle? || call.LateSettle?
  }

  predicate IsFailure(call: Call) {
    call.Fail? || call.LateFail?
  }

  predicate IsReport(call: Call) {
    IsDone(call) || IsFailure(call)
  }

  /** A report on an attempt that was reported on before. */
  predicate IsLate(call: Call) {
    call.LateSettle? || call.LateFail?
  }

  /** The first report among the calls: by AfterOutcome there is never more than one. */
  function Report(calls: seq<Call>): (report: Option<Call>)
    ensures report.Some? ==> IsReport(report.value) && report.value in calls
  {
    if calls == [] then None else if IsReport(calls[0]) then Some(calls[0]) else Report(calls[1..])
  }

  /**
   * The ways a callback can end, told apart by its calls. It makes at most one report, which is
   * about the current response and is late if the attempt was reported on before. A complete
   * response is detached; it is released before the report, or closed for behind it. A failure
   * keeps the response, with or without a close before or behind the report.
   */
  predicate Ending(r: Reader, after: Reader) {
    && r.calls <= after.calls && after.attached == r.attached
    && var calls := NewCalls(r, after);
    match Report(calls)
    case None =>
      && SameAttempt(r, after)
      && (if calls == [] then after.closed == r.closed else calls == [Remove] && after.closed && !r.closed)
    case Some(report) =>
      && r.res.Some? && report.id == r.res.value.id && (IsLate(report) <==> r.res.value.ready)
      && (if IsDone(report) then
            && after.res.None?
            && (if calls == [Release, report] then after.closed == r.closed
                else calls == (if r.closed then [report] else [report, Remove]) && after.closed)
          else
            && after.res.Some? && after.res.value.id == report.id && after.res.value.ready
            && (if calls == [report] then after.closed == r.closed
                else (calls == [report, Remove] || calls == [Remove, report]) && after.closed && !r.closed))
  }

  predicate SameAttempt(r: Reader, after: Reader) {
    && after.res.Some? == r.res.Some?
    && (r.res.Some? ==> after.res.value.id == r.res.value.id && after.res.value.ready == r.res.value.ready)
  }

  lemma ReportOf(report: Call)
    requires IsReport(report)
    ensures Report([report]) == Report([report, Remove]) == Some(report)
    ensures Report([Remove, report]) == Report([Release, report]) == Some(report)
    ensures Report([]) == Report([Remove]) == None
  {
    assert [Remove, report][1..] == [report] && [Release, report][1..] == [report] && [Remove][1..] == [];
    assert [report][0] == report && [report, Remove][0] == report;
  }

  lemma NewCallsAre(r: Reader, after: Reader, calls: seq<Call>)
    requires after.calls == r.calls + calls
    ensures r.calls <= after.calls && NewCalls(r, after) == calls
  {
  }

  /** `start` is a reader that has made no call yet and still has its response. */
  predicate Begun(r: Reader, start: Reader) {
    start.calls == r.calls && start.attached == r.attached && start.closed == r.closed && start.res == r.res
  }

  lemma CloseOutcome(r: Reader, start: Reader)
    requires Begun(r, start)
    ensures Ending(r, Close(start))
  {
    NewCallsAre(r, Close(start), if r.closed then [] else [Remove]);
    ReportOf(Fail(0, ""));
  }

  lemma FailOutcome(r: Reader, start: Reader, why: string)
    requires Begun(r, start)
    ensures Ending(r, FailCurrent(start, why))
  {
    if r.res.Some? {
      NewCallsAre(r, FailCurrent(start, why), [Failure(r.res.value, why)]);
      ReportOf(Failure(r.res.value, why));
    } else {
      NewCallsAre(r, start, []);
      ReportOf(Fail(0, ""));
    }
  }

  /** Close, then the failure: a lost connection, a timeout, or headers that do not frame a body. */
  lemma CloseFailOutcome(r: Reader, start: Reader, why: string)
    requires Begun(r, start)
    ensures Ending(r, FailCurrent(Close(start), why))
  {
    if r.res.None? {
      CloseOutcome(r, start);
    } else if r.closed {
      FailOutcome(r, start, why);
    } else {
      var after := FailCurrent(Close(start), why);
      assert r.calls + [Remove] + [Failure(r.res.value, why)] == r.calls + [Remove, Failure(r.res.value, why)];
      NewCallsAre(r, after, [Remove, Failure(r.res.value, why)]);
      ReportOf(Failure(r.res.value, why));
    }
  }

  /** The failure, then close: a request that could not be written. */
  lemma FailCloseOutcome(r: Reader, start: Reader, why: string)
    requires Begun(r, start) && r.res.Some?
    ensures Ending(r, Close(FailCurrent(start, why)))
  {
    if r.closed {
      FailOutcome(r, start, why);
    } else {
      var after := Close(FailCurrent(start, why));
      assert r.calls + [Failure(r.res.value, why)] + [Remove] == r.calls + [Failure(r.res.value, why), Remove];
      NewCallsAre(r, after, [Failure(r.res.value, why), Remove]);
      ReportOf(Failure(r.res.value, why));
    }
  }

  lemma QuietOutcome(r: Reader, after: Reader)
    requires after.calls == r.calls && after.attached == r.attached && after.closed == r.closed && SameAttempt(r, after)
    ensures Ending(r, after)
  {
    NewCallsAre(r, after, []);
    ReportOf(Fail(0, ""));
  }

  lemma ExtractOutcome(r: Reader, start: Reader, data: string)
    requires Begun(r, start) && r.res.Some?
    ensures Ending(r, Extract(start, data))
  {
    hide HeaderValue;
    hide WithBody;
    hide Ending;
    hide Close;
    var a := r.res.value;
    var settle := Settlement(a.id, a.ready, if start.chunked then a.content else WithBody(a.content, data));
    DetachOutcome(r, ReadDone(start).(res := None, calls := r.calls + [settle]), settle);
    ReleaseOutcome(r, start.(res := None, want := StatusLine, calls := r.calls + [Release] + [settle]), settle);
  }

  /** A complete response whose connection goes back to the pool. */
  lemma ReleaseOutcome(r: Reader, after: Reader, settle: Call)
    requires after.calls == r.calls + [Release] + [settle] && after.attached == r.attached
    requires after.closed == r.closed && after.res.None?
    requires r.res.Some? && IsDone(settle) && settle.id == r.res.value.id && (IsLate(settle) <==> r.res.value.ready)
    ensures Ending(r, after)
  {
    ReportOf(settle);
    assert r.calls + [Release] + [settle] == r.calls + [Release, settle];
    NewCallsAre(r, after, [Release, settle]);
  }

  /** A complete response whose connection is closed. */
  lemma DetachOutcome(r: Reader, mid: Reader, settle: Call)
    requires mid.calls == r.calls + [settle] && mid.attached == r.attached && mid.closed == r.closed && mid.res.None?
    requires r.res.Some? && IsDone(settle) && settle.id == r.res.value.id && (IsLate(settle) <==> r.res.value.ready)
    ensures Ending(r, Close(mid))
  {
    ReportOf(settle);
    assert r.calls + [settle] + [Remove] == r.calls + [settle, Remove];
    NewCallsAre(r, Close(mid), if r.closed then [settle] else [settle, Remove]);
  }

  lemma HandleOutcome(r: Reader, text: string)
    requires Consistent(r) && r.want != Nothing
    ensures Ending(r, Handle(r, text))
  {
    hide ParseStatusLine;
    hide ParseHeaderLine;
    hide BodyReadOf;
    hide Ending;
    hide Close;
    hide FailCurrent;
    hide Extract;
    var x := Extended(r);
    match r.want {
      case StatusLine =>
        CloseOutcome(r, ReadDone(x));
        if r.res.Some? {
          QuietOutcome(r, OnStatusLine(x, text));
        }
      case HeaderLine => HeaderOutcome(r, x, text);
      case ChunkSizeLine => QuietOutcome(r, OnChunkSizeLine(x, text));
      case LastLine => ExtractOutcome(r, x, "");
      case ChunkBytes(_) => QuietOutcome(r, OnChunkBytes(x, text));
      case BodyBytes(_) => ExtractOutcome(r, x, text);
    }
  }

  lemma HeaderOutcome(r: Reader, start: Reader, line: string)
    requires Begun(r, start) && r.res.Some?
    ensures Ending(r, OnHeaderLine(start, line))
  {
    hide ParseHeaderLine;
    hide BodyReadOf;
    hide Ending;
    hide Close;
    hide FailCurrent;
    var read := BodyReadOf(r.res.value.content.headers);
    if line == "" && read.Unstated? {
      CloseFailOutcome(r, ReadDone(start), read.why);
    } else {
      QuietOutcome(r, OnHeaderLine(start, line));
    }
  }

  lemma AfterOutcome(r: Reader, e: HttpReader.Event)
    requires Consistent(r) && Allowed(r, e) && !e.Write?
    ensures Ending(r, After(r, e))
  {
    hide Ending;
    hide Handle;
    hide Close;
    hide FailCurrent;
    match e {
      case Text(text) => HandleOutcome(r, text);
      case Disconnect(why) =>
        CloseOutcome(r, ReadDone(r));
        CloseFailOutcome(r, ReadDone(r), why);
      case Elapse => QuietOutcome(r, After(r, e));
      case Timeout(why) => CloseFailOutcome(r, Stopped(r), why);
      case WriteError(why) =>
        if r.res.Some? {
          FailCloseOutcome(r, r.(writes := r.writes - 1), why);
        } else {
          QuietOutcome(r, After(r, e));
        }
      case Sent => QuietOutcome(r, After(r, e));
      case Overwritten(_) => QuietOutcome(r, After(r, e));
      case Write(_, _) => assert false;
    }
  }
}
