/** Where retrying and closing meet: include/net/asio/http/connection.h and client.h. */
module HttpRetry {
  import opened Prelude
  import opened Response
  import opened HttpReader
  import HttpConnection
  import HttpRuns
  import HttpWire
  import Client

  /** How a connection ends an attempt, and which of its operations reports after that. */
  datatype Ending = Stall | Loss
  datatype Report = ByRead | ByWrite

  /** The connection stalls or is lost: its attempt fails, and what is outstanding stays so. */
  method EndAttempt(conn: HttpConnection.Connection, ending: Ending, why: string)
    requires conn.Valid() && !conn.closed && conn.want != Nothing && conn.res != null && conn.res.current == None
    requires ending == Loss ==> conn.want != ChunkSizeLine && conn.want != LastLine
    modifies conn, conn.res
    ensures conn.Valid() && conn.closed && conn.res == old(conn.res) && conn.writes == old(conn.writes)
    ensures conn.want == if ending == Stall then old(conn.want) else Nothing
    ensures conn.res.current == Some(Failed(why)) && conn.res.completion == old(conn.res.completion)
  {
    if ending == Stall {
      if conn.due == 0 {
        conn.TimerElapsed();
      }
      conn.TimerExpired(why);
    } else {
      conn.ReadFailed(why);
    }
  }

  /**
   * A retry is not safe from the connection it left. The connection stalls or is lost at any
   * point, that fails the attempt, and the handlers want a retry, which shares the response
   * object. Then an operation that the close cut short reports to the object: this fails the
   * new attempt, before any connection was given to it, if and only if the operation was the
   * writing of the request or a read with an error callback.
   */
  method LateReportFailsRetryIff(
      conn: HttpConnection.Connection, call: Client.Call, handlers: seq<Client.Verdict>,
      ending: Ending, report: Report, why: string, late: string)
    requires conn.Valid() && !conn.closed && conn.want != Nothing && conn.res == call.res
    requires call.res.current == None && call.res.completion == None && Client.Decide(handlers) == Client.Veto
    requires ending == Loss ==> conn.want != ChunkSizeLine && conn.want != LastLine && report == ByWrite
    requires report == ByWrite ==> conn.writes > 0
    modifies conn, call, call.res
    ensures call.retry == old(call.retry) + 1 && call.requests == old(call.requests) + 1
    ensures call.res.completion == None
    ensures call.res.current ==
            if report == ByWrite || (old(conn.want) != ChunkSizeLine && old(conn.want) != LastLine)
            then Some(Failed(late)) else None
  {
    hide Client.Decide;
    hide Cleared;
    hide Disconnected;
    hide WriteFailed;
    EndAttempt(conn, ending, why);
    call.OnCurrentReady(handlers);
    if report == ByRead {
      conn.ReadFailed(late);
    } else {
      conn.RequestWriteFailed(late);
    }
  }

  /**
   * After any number of vetoes the response object is fresh: a proper response to the next
   * attempt settles it with its own meaning, whatever the attempts before have left.
   */
  lemma RetryIsFresh(
      rounds: seq<Client.Round>, r: Reader, id: nat, w: HttpWire.WireResponse, rest: string,
      supply: seq<HttpRuns.Request>)
    requires Client.FirstDecided(rounds) == |rounds|
    requires Consistent(r) && !r.closed && r.timer.armed && HttpRuns.Awaiting(r) && HttpWire.Proper(w)
    ensures var x := Client.SettleAll(Client.Begin(BLANK), rounds);
            var request := HttpRuns.Request(id, x.content);
            var answered := HttpWire.Answered(r, id, w);
            && x.retry == |rounds| && HttpWire.Fresh([request]) && Consistent(answered)
            && HttpRuns.Decode(r, HttpWire.Encode(w) + rest, [request] + supply) ==
               HttpRuns.Decode(answered, rest, supply)
            && (Settle(id, HttpWire.Meaning(w)) in answered.calls)
  {
    Client.FirstDecidedWins(Client.Begin(BLANK), rounds);
    var x := Client.SettleAll(Client.Begin(BLANK), rounds);
    var request := HttpRuns.Request(id, x.content);
    assert x.content.headers == [] && x.content.body == "";
    hide Client.SettleAll;
    hide HttpWire.Meaning;
    hide HttpWire.AsksToClose;
    assert [request][0] == request;
    HttpWire.DecodeResponse(r, request, w, rest, supply);
  }
}
