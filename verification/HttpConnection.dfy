/** The connection object of include/net/asio/http/connection.h and connection/tcp.h. */
module HttpConnection {
  import opened Prelude
  import opened Text
  import opened Numbers
  import opened Message
  import opened ReadBuffer
  import opened Response
  import opened HttpReader

  class Connection {
    /** `in_`: bytes received and not yet consumed by a read. */
    var buffer: string
    /** The read whose callback is to run next, which it does after a close too. */
    var want: Want
    /** `transfer_mode_`, `expected_bytes_`. */
    var chunked: bool
    var expected: nat
    var res: Response?
    /** The requests handed to the socket, and how many of them it is still sending. */
    var sent: seq<string>
    var writes: nat
    /** The stall timer runs, and how often it has run out with the callback still queued. */
    var armed: bool
    var due: nat
    var closed: bool
    var valid: bool
    var threw: bool
    /** A null `res_` was dereferenced. */
    var crashed: bool
    /** Calls made on the pool and reports made to the response, in order. */
    var calls: seq<Call>
    ghost var attached: seq<nat>
    /** Something was reported to the current response. */
    var reported: bool

    ghost function State(): Reader
      reads this, res
    {
      Reader(
        want, chunked,
        if res == null then None else Some(Attempt(res.id, res.State(), reported)),
        writes, Timer(armed, due), closed, threw, crashed, attached, calls)
    }

    ghost predicate Valid()
      reads this, res
    {
      Consistent(State()) && valid == !closed
    }

    /** The first status line is awaited from the moment the connection is made. */
    constructor ()
      ensures Valid() && State() == CONNECTED && buffer == "" && sent == []
    {
      buffer, want, chunked, expected := "", StatusLine, false, 0;
      res, sent, writes, armed, due := null, [], 0, true, 0;
      closed, valid, threw, crashed := false, true, false, false;
      calls, attached, reported := [], [], false;
    }

    method WriteRequest(r: Response)
      requires Valid()
      modifies this
      ensures Valid() && res == r && buffer == old(buffer)
      ensures State() == Attach(old(State()), r.id, r.State())
      ensures sent == old(sent) + [Requests.Print(r.request.State())]
    {
      hide Requests.Print;
      var s := r.request.Bytes();
      res := r;
      ExtendTimer();
      sent := sent + [s];
      writes := writes + 1;
      attached := attached + [r.id];
      reported := false;
    }

    method ExtendTimer()
      modifies this`armed
      ensures armed
    {
      armed := true;
    }

    predicate IsValid()
      reads this
    {
      valid && !closed
    }

    method AlreadyClosing() returns (already: bool)
      modifies this`valid, this`closed
      ensures already == old(closed) && closed && !valid
    {
      valid := false;
      already := closed;
      closed := true;
    }

    method CloseConnection()
      modifies this`valid, this`closed, this`armed, this`calls
      ensures State() == Close(old(State())) && closed && !valid
    {
      var already := AlreadyClosing();
      if already {
        return;
      }
      armed := false;
      calls := calls + [Remove];
    }

    method FailCurrentCompletion(why: string)
      modifies this`calls, this`reported, res
      ensures State() == FailCurrent(old(State()), why)
      ensures res != null ==>
                && res.current == (if old(res.current).None? then Some(Failed(why)) else old(res.current))
                && res.completion == old(res.completion)
    {
      if res != null {
        var settled := res.SettleCurrent(Failed(why));
        calls := calls + [if reported then LateFail(res.id, why) else Fail(res.id, why)];
        reported := true;
      }
    }

    method HandleResponse()
      modifies this`want
      ensures want == StatusLine
    {
      want := StatusLine;
    }

    method ReadNextHeader()
      modifies this`want
      ensures want == HeaderLine
    {
      want := HeaderLine;
    }

    method ReadNextBodyChunk()
      modifies this`want
      ensures want == if chunked then ChunkSizeLine else BodyBytes(expected)
    {
      want := if chunked then ChunkSizeLine else BodyBytes(expected);
    }

    method ThrowOut()
      modifies this`want, this`threw
      ensures want == Nothing && threw
    {
      want, threw := Nothing, true;
    }

    method StatusLineRead(line: string)
      requires Valid() && want == StatusLine
      modifies this, res
      ensures State() == OnStatusLine(Extended(old(State())), line) && valid == !closed && buffer == old(buffer)
    {
      hide ParseStatusLine;
      hide Close;
      if res == null {
        want := Nothing;
        CloseConnection();
        return;
      }
      ExtendTimer();
      var r := res.ParseInitialLine(line);
      if r.Thrown? {
        ThrowOut();
      } else {
        ReadNextHeader();
      }
    }

    method HeaderLineRead(line: string)
      requires Valid() && want == HeaderLine
      modifies this, res
      ensures State() == OnHeaderLine(Extended(old(State())), line) && valid == !closed && buffer == old(buffer)
    {
      ExtendTimer();
      if line == "" {
        HeadersEnded();
        return;
      }
      var r := res.ParseHeader(line);
      if r.Thrown? {
        ThrowOut();
      } else {
        ReadNextHeader();
      }
    }

    method HeadersEnded()
      requires Valid() && want == HeaderLine
      modifies this, res
      ensures State() == OnHeadersEnd(old(State())) && valid == !closed && buffer == old(buffer)
    {
      hide Stoi;
      hide HeaderValue;
      hide Find;
      hide Unframed;
      var length := LookUp(res.headers, "Content-Length");
      if length.Some? {
        var n := Stoi(length.value, 10);
        if n.Thrown? {
          ThrowOut();
          return;
        }
        expected := ToSize(n.value);
        chunked := false;
        ReadNextBodyChunk();
      } else {
        CodingRead();
      }
    }

    /** Without a length, the coding decides. */
    method CodingRead()
      requires Valid() && want == HeaderLine && HeaderValue(res.headers, "Content-Length") == None
      modifies this, res
      ensures State() == OnHeadersEnd(old(State())) && valid == !closed && buffer == old(buffer)
    {
      hide Stoi;
      hide HeaderValue;
      hide Find;
      hide Unframed;
      var coding := LookUp(res.headers, "Transfer-Encoding");
      if coding.None? {
        GiveUp("header Transfer-Encoding not found");
      } else if Find(coding.value, "chunked", 0).Some? {
        chunked := true;
        expected := 0;
        ReadNextBodyChunk();
      } else {
        GiveUp("no content-length or TE");
      }
    }

    method GiveUp(why: string)
      requires Valid()
      modifies this, res
      ensures State() == Unframed(old(State()), why) && valid == !closed && buffer == old(buffer)
    {
      want := Nothing;
      CloseConnection();
      FailCurrentCompletion(why);
    }

    method ChunkSizeRead(line: string)
      requires Valid() && want == ChunkSizeLine
      modifies this
      ensures State() == OnChunkSizeLine(Extended(old(State())), line) && valid == !closed && buffer == old(buffer)
    {
      ExtendTimer();
      var n := Stoi(line, 16);
      if n.Thrown? {
        ThrowOut();
        return;
      }
      var size := ToSize(n.value);
      if size > 0 {
        expected := size;
        want := ChunkBytes(ToSize(size + 2));
      } else {
        want := LastLine;
      }
    }

    method ChunkRead(data: string)
      requires Valid() && want.ChunkBytes?
      modifies this, res
      ensures State() == OnChunkBytes(Extended(old(State())), data) && valid == !closed && buffer == old(buffer)
    {
      res.AppendBody(WithoutLineEnd(data));
      ExtendTimer();
      ReadNextBodyChunk();
    }

    /** The response is complete: its object is detached before the pool can attach another. */
    method ExtractNextBodyChunk(data: string)
      requires Valid() && MidResponse(want)
      modifies this, res
      ensures State() == Extract(Extended(old(State())), data) && valid == !closed && buffer == old(buffer)
      ensures res == null
      ensures old(res).current ==
              if old(res.current).None? then Some(Done(old(res).status)) else old(res.current)
      ensures old(res).State() == (if chunked then old(res.State()) else WithBody(old(res.State()), data))
    {
      hide HeaderValue;
      hide WithBody;
      hide Close;
      hide Settlement;
      ExtendTimer();
      if !chunked {
        res.SetBody(data);
      }
      var r: Response := res;
      res := null;
      Finish(r);
    }

    /** The connection goes back to the pool before the completion is settled, or is closed after it. */
    method Finish(r: Response)
      requires res == null && valid == !closed
      modifies this, r
      ensures var settle := Settlement(r.id, reported, old(r.State()));
              State() == if HeaderValue(old(r.headers), "Connection") == Some("close")
                         then Close(ReadDone(old(State())).(calls := old(calls) + [settle]))
                         else old(State()).(want := StatusLine, calls := old(calls) + [Release] + [settle])
      ensures res == null && valid == !closed && buffer == old(buffer) && chunked == old(chunked)
      ensures reported == old(reported) && r.State() == old(r.State())
      ensures r.current == if old(r.current).None? then Some(Done(r.status)) else old(r.current)
    {
      hide HeaderValue;
      hide Settlement;
      var connection := LookUp(r.headers, "Connection");
      if connection == Some("close") {
        Deliver(r);
        want := Nothing;
        CloseConnection();
      } else {
        HandleResponse();
        calls := calls + [Release];
        Deliver(r);
      }
    }

    method Deliver(r: Response)
      modifies this`calls, r
      ensures calls == old(calls) + [Settlement(r.id, reported, old(r.State()))]
      ensures r.State() == old(r.State())
      ensures r.current == if old(r.current).None? then Some(Done(r.status)) else old(r.current)
    {
      var settled := r.SettleCurrent(Done(r.status));
      calls := calls + [Settlement(r.id, reported, r.State())];
    }

    method Receive(segment: string)
      modifies this`buffer
      ensures buffer == old(buffer) + segment
    {
      buffer := buffer + segment;
    }

    /** The completion of `read_delimited` or `read`: a part of the buffer is consumed. */
    method TakeFromBuffer(read: Read) returns (text: string)
      requires Take(read, buffer).Some?
      modifies this`buffer
      ensures Take(read, old(buffer)) == Some((text, buffer))
    {
      match read {
        case Delimited(delim) =>
          var bytes := Find(buffer, delim, 0).value + |delim|;
          text := buffer[..bytes - |delim|];
          buffer := buffer[bytes..];
        case Exactly(wanted) =>
          text := buffer[..wanted];
          buffer := buffer[wanted..];
      }
    }

    /** Completes the outstanding read when `arrived` has come behind the buffer, and runs its callback. */
    method Callback(arrived: string)
      requires Valid() && want != Nothing
      requires Take(ReadOf(want).value, buffer + arrived).Some?
      modifies this, res
      ensures valid == !closed
      ensures var (text, rest) := Take(ReadOf(old(want)).value, old(buffer) + arrived).value;
              State() == Handle(old(State()), text) && buffer == rest
    {
      Receive(arrived);
      var text := TakeFromBuffer(ReadOf(want).value);
      match want {
        case StatusLine => StatusLineRead(text);
        case HeaderLine => HeaderLineRead(text);
        case ChunkSizeLine => ChunkSizeRead(text);
        case LastLine => ExtractNextBodyChunk("");
        case ChunkBytes(_) => ChunkRead(text);
        case BodyBytes(_) => ExtractNextBodyChunk(text);
      }
    }

    /**
     * The outstanding read fails: close, then its error callback, if it has one. After a close it
     * reports to the completion that the response has by then, which need not be the one it was
     * read for.
     */
    method ReadFailed(why: string)
      requires Valid() && want != Nothing
      modifies this, res
      ensures State() == Disconnected(old(State()), why) && valid == !closed
      ensures res == old(res)
      ensures res != null ==>
                && res.completion == old(res.completion)
                && res.current == (if old(res.current).None? && old(want) != ChunkSizeLine && old(want) != LastLine
                                   then Some(Failed(why)) else old(res.current))
    {
      var lost := want;
      want := Nothing;
      CloseConnection();
      if lost != ChunkSizeLine && lost != LastLine {
        FailCurrentCompletion(why);
      }
    }

    method TimerElapsed()
      requires Valid() && armed
      modifies this`armed, this`due
      ensures State() == Elapsed(old(State()))
    {
      armed, due := false, due + 1;
    }

    method TimerExpired(why: string)
      requires Valid() && due > 0
      modifies this, res
      ensures State() == TimedOut(old(State()), why) && valid == !closed
      ensures res == old(res)
      ensures res != null ==>
                && res.completion == old(res.completion)
                && res.current == (if old(res.current).None? then Some(Failed(why)) else old(res.current))
    {
      armed, due := false, due - 1;
      CloseConnection();
      FailCurrentCompletion(why);
    }

    method RequestWritten()
      requires Valid() && writes > 0
      modifies this
      ensures State() == WriteDone(old(State())) && valid == !closed
    {
      writes := writes - 1;
      ExtendTimer();
    }

    /** The callback of a failed write uses `res_` without a check; after that, close. */
    method RequestWriteFailed(why: string)
      requires Valid() && writes > 0
      modifies this, res
      ensures State() == WriteFailed(old(State()), why) && valid == !closed
      ensures res == old(res)
      ensures res != null ==>
                && res.completion == old(res.completion)
                && res.current == (if old(res.current).None? then Some(Failed(why)) else old(res.current))
    {
      writes := writes - 1;
      if res == null {
        crashed := true;
        return;
      }
      FailCurrentCompletion(why);
      CloseConnection();
    }
  }
}
