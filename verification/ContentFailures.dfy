/** A concrete run of a new client on which a retried attempt finds what another connection read. */
module ContentFailures {
  import opened Prelude
  import opened Response
  import opened HttpReader
  import opened HttpOutcome
  import opened HttpContent
  import Client
  import E = ExchangeFailures
  import HttpExchange
  import HttpFailures
  import HttpSystem

  /** The event may happen, and this is where it leads. */
  ghost predicate Leads(y: HttpContent.State, e: HttpExchange.Event, next: HttpContent.State) {
    HttpContent.Inv(y) && HttpContent.Possible(y, e) && HttpContent.Inv(next) && HttpContent.Next(y, e) == next
  }

  /** The events are a run with this end. */
  ghost predicate Ends(y: HttpContent.State, events: seq<HttpExchange.Event>, end: HttpContent.State) {
    HttpContent.Inv(y) && HttpContent.AllPossible(y, events) && HttpContent.Run(y, events) == end
  }

  lemma At(
      y: HttpContent.State, next: HttpContent.State, events: seq<HttpExchange.Event>, i: nat, end: HttpContent.State)
    requires i < |events| && Leads(y, events[i], next) && Ends(next, events[i + 1..], end)
    ensures Ends(y, events[i..], end)
  {
    hide HttpContent.Inv;
    hide HttpContent.Next;
    assert events[i..][1..] == events[i + 1..];
  }

  /** A retry, and then the status line for which the stalled connection was waiting. */
  const LATE_LINE: seq<HttpExchange.Event> := [
    HttpExchange.NewCall,
    HttpExchange.Net(HttpSystem.Made(0), []),
    HttpExchange.Net(HttpSystem.On(0, Elapse), []),
    HttpExchange.Net(HttpSystem.On(0, Timeout("stall")), [Client.Veto]),
    HttpExchange.Net(HttpSystem.On(0, Text(HttpFailures.STATUS_LINE)), [])]

  function Called(s: HttpSystem.System): HttpContent.State {
    HttpContent.State(HttpExchange.State(s, E.FIRST), [BLANK], [BLANK], {}, map[])
  }

  function Retried(): HttpContent.State {
    HttpContent.State(
      HttpExchange.State(E.AfterRetry(), E.Vetoed()), [BLANK], [BLANK, BLANK], {}, map[0 := (BLANK, BLANK)])
  }

  lemma CallLeads()
    ensures Leads(HttpContent.Begin(true, 1), HttpExchange.NewCall, Called(E.AfterNewCall()))
  {
    hide HttpExchange.Inv;
    hide HttpExchange.Next;
    HttpContent.BeginInv(true, 1);
    E.CallLeads();
    HttpContent.InvKept(HttpContent.Begin(true, 1), HttpExchange.NewCall);
    assert [] + [BLANK] == [BLANK];
  }

  lemma MadeLeads()
    requires HttpContent.Inv(Called(E.AfterNewCall()))
    requires E.Leads(
               HttpExchange.State(E.AfterNewCall(), E.FIRST), LATE_LINE[1],
               HttpExchange.State(E.AfterMade(), E.FIRST))
    ensures Leads(Called(E.AfterNewCall()), LATE_LINE[1], Called(E.AfterMade()))
  {
    hide HttpExchange.Inv;
    hide HttpExchange.Next;
    HttpContent.InvKept(Called(E.AfterNewCall()), LATE_LINE[1]);
  }

  /** Handing over the content that is there changes nothing. */
  lemma SameObject(x: HttpExchange.State, e: HttpSystem.Event)
    requires HttpExchange.Inv(x) && HttpExchange.Possible(x, HttpExchange.Net(e, [])) && OnResponse(x.system, e)
    requires x.system.readers[e.conn].res.value.content == BLANK
    ensures Refreshed(x, e, BLANK) == x
  {
    RefreshedIs(x, e, BLANK);
    hide HttpExchange.Inv;
    hide HttpExchange.Next;
    var readers := x.system.readers;
    assert readers[e.conn := With(readers[e.conn], BLANK)] == readers;
  }

  /** An event on a response that is blank, in the books too. */
  lemma SharedLeads(
      y: HttpContent.State, event: HttpSystem.Event, verdicts: seq<Client.Verdict>,
      next: HttpExchange.State, left: Content)
    requires HttpContent.Inv(y) && HttpContent.Possible(y, HttpExchange.Net(event, verdicts))
    requires OnResponse(y.exchange.system, event)
    requires E.Leads(y.exchange, HttpExchange.Net(event, verdicts), next)
    requires var r := y.exchange.system.readers[event.conn];
             && r.res == Some(Attempt(0, BLANK, r.res.value.ready)) && Consistent(r) && Allowed(r, event.event)
             && LeftBy(r, event.event) == left
    requires 0 < |y.own| && y.own[0] == BLANK && 0 < |y.content| && y.content[0] == BLANK
    requires y.exchange.book.owner[0] == 0
    ensures HttpContent.Shape(y)
    ensures Leads(y, HttpExchange.Net(event, verdicts), Recorded(y, event, next, 0, left, left))
  {
    hide HttpExchange.Inv;
    hide HttpExchange.Next;
    hide LeftBy;
    hide Recorded;
    hide Refreshed;
    var r := y.exchange.system.readers[event.conn];
    SameObject(y.exchange, event);
    assert With(r, BLANK) == r;
    HttpContent.InvKept(y, HttpExchange.Net(event, verdicts));
  }

  lemma ElapseLeads()
    requires HttpContent.Inv(Called(E.AfterMade()))
    requires E.Leads(
               HttpExchange.State(E.AfterMade(), E.FIRST), LATE_LINE[2],
               HttpExchange.State(E.AfterElapse(), E.FIRST))
    ensures Leads(Called(E.AfterMade()), LATE_LINE[2], Called(E.AfterElapse()))
  {
    hide HttpContent.Inv;
    hide HttpExchange.Inv;
    hide HttpExchange.Next;
    hide HttpSystem.Possible;
    hide LeftBy;
    OthersLeave(E.WRITTEN, Elapse);
    SharedLeads(
      Called(E.AfterMade()), HttpSystem.On(0, Elapse), [], HttpExchange.State(E.AfterElapse(), E.FIRST), BLANK);
    assert [BLANK][0 := BLANK] == [BLANK];
  }

  lemma VetoLeads()
    requires HttpContent.Inv(Called(E.AfterElapse()))
    requires E.Leads(HttpExchange.State(E.AfterElapse(), E.FIRST), LATE_LINE[3],
                     HttpExchange.State(E.AfterRetry(), E.Vetoed()))
    ensures Leads(Called(E.AfterElapse()), LATE_LINE[3], Retried())
  {
    hide HttpContent.Inv;
    hide HttpExchange.Inv;
    hide HttpExchange.Next;
    hide HttpSystem.Possible;
    hide LeftBy;
    hide E.AfterRetry;
    OthersLeave(E.DUE, Timeout("stall"));
    SharedLeads(Called(E.AfterElapse()), HttpSystem.On(0, Timeout("stall")), [Client.Veto],
                HttpExchange.State(E.AfterRetry(), E.Vetoed()), BLANK);
    VetoRecorded();
  }

  lemma VetoRecorded()
    requires HttpContent.Shape(Called(E.AfterElapse()))
    ensures Recorded(Called(E.AfterElapse()), HttpSystem.On(0, Timeout("stall")),
                     HttpExchange.State(E.AfterRetry(), E.Vetoed()), 0, BLANK, BLANK) == Retried()
  {
    hide HttpExchange.Inv;
    hide E.AfterRetry;
    hide E.AfterElapse;
    hide Client.Settle;
    assert [BLANK][0 := BLANK] == [BLANK] && [BLANK] + [BLANK] == [BLANK, BLANK] && Cleared(BLANK) == BLANK;
  }

  /** A closed connection reads on. */
  lemma LateLine()
    ensures Consistent(E.STALLED) && Allowed(E.STALLED, Text(HttpFailures.STATUS_LINE))
    ensures LeftBy(E.STALLED, Text(HttpFailures.STATUS_LINE)) == HttpFailures.OK_CONTENT
    ensures After(E.STALLED, Text(HttpFailures.STATUS_LINE)).calls == E.STALLED.calls
  {
    hide Handle;
    HttpFailures.StatusRead(E.STALLED);
    var after := Handle(E.STALLED, HttpFailures.STATUS_LINE);
    NewCallsAre(E.STALLED, after, []);
  }

  lemma LineHeard()
    requires HttpExchange.Inv(HttpExchange.State(E.AfterRetry(), E.Vetoed()))
    ensures var e := HttpSystem.On(0, Text(HttpFailures.STATUS_LINE));
            HttpSystem.Possible(E.AfterRetry(), e) && HttpExchange.Heard(E.AfterRetry(), e) == None
  {
    hide HttpSystem.Linked;
    LateLine();
    hide After;
    NewCallsAre(E.STALLED, After(E.STALLED, Text(HttpFailures.STATUS_LINE)), []);
  }

  /** The line is parsed into the response of the second attempt, which has no connection yet. */
  lemma LineLeads() returns (end: HttpContent.State)
    requires HttpContent.Inv(Retried())
    ensures Leads(Retried(), LATE_LINE[4], end)
    ensures end.content == [HttpFailures.OK_CONTENT] && end.own == [HttpFailures.OK_CONTENT, BLANK]
    ensures end.touched == {1}
  {
    hide HttpContent.Inv;
    hide HttpExchange.Inv;
    hide HttpExchange.Next;
    hide HttpSystem.Possible;
    hide LeftBy;
    hide E.AfterRetry;
    hide E.Vetoed;
    hide HttpFailures.STATUS_LINE;
    hide HttpFailures.OK_CONTENT;
    var y, e := Retried(), HttpSystem.On(0, Text(HttpFailures.STATUS_LINE));
    var next := LineExchange();
    SharedLeads(y, e, [], next, HttpFailures.OK_CONTENT);
    RecordedLine(next, y, e);
    end := Recorded(y, e, next, 0, HttpFailures.OK_CONTENT, HttpFailures.OK_CONTENT);
  }

  lemma LineExchange() returns (next: HttpExchange.State)
    requires HttpContent.Inv(Retried())
    ensures var y, e := Retried(), HttpSystem.On(0, Text(HttpFailures.STATUS_LINE));
            && HttpContent.Possible(y, HttpExchange.Net(e, [])) && OnResponse(y.exchange.system, e)
            && E.Leads(y.exchange, HttpExchange.Net(e, []), next) && next.book == E.Vetoed()
            && y.exchange.system.readers[0] == E.STALLED && y.exchange.book.owner[0] == 0
            && E.STALLED.res == Some(Attempt(0, BLANK, true))
            && Consistent(E.STALLED) && Allowed(E.STALLED, e.event)
            && LeftBy(E.STALLED, e.event) == HttpFailures.OK_CONTENT
            && HttpContent.Shape(y)
  {
    hide HttpExchange.Inv;
    hide HttpExchange.Next;
    hide HttpExchange.Heard;
    hide HttpSystem.Possible;
    hide LeftBy;
    var y, e := Retried(), HttpSystem.On(0, Text(HttpFailures.STATUS_LINE));
    LineHeard();
    LateLine();
    next := QuietNext(y.exchange, e);
  }

  lemma QuietNext(x: HttpExchange.State, e: HttpSystem.Event) returns (next: HttpExchange.State)
    requires HttpExchange.Inv(x) && HttpExchange.Possible(x, HttpExchange.Net(e, []))
    requires HttpExchange.Heard(x.system, e) == None
    ensures E.Leads(x, HttpExchange.Net(e, []), next) && next.book == x.book
  {
    QuietBook(x, e);
    HttpExchange.InvKept(x, HttpExchange.Net(e, []));
    next := HttpExchange.Next(x, HttpExchange.Net(e, []));
    hide HttpExchange.Inv;
    hide HttpExchange.Next;
  }

  lemma QuietBook(x: HttpExchange.State, e: HttpSystem.Event)
    requires HttpExchange.Inv(x) && HttpExchange.Possible(x, HttpExchange.Net(e, []))
    requires HttpExchange.Heard(x.system, e) == None
    ensures HttpExchange.Next(x, HttpExchange.Net(e, [])).book == x.book
  {
    hide HttpSystem.Linked;
    hide HttpSystem.Next;
    hide HttpExchange.Heard;
  }

  lemma RecordedLine(next: HttpExchange.State, y: HttpContent.State, e: HttpSystem.Event)
    requires HttpContent.Shape(y) && y == Retried() && next.book == E.Vetoed() && e.On? && e.event.Text?
    ensures var ok := HttpFailures.OK_CONTENT; var end := Recorded(y, e, next, 0, ok, ok);
            end.content == [ok] && end.own == [ok, BLANK] && end.touched == {1}
  {
    hide HttpExchange.Inv;
    var ok, none: set<nat> := HttpFailures.OK_CONTENT, {};
    assert [BLANK][0 := ok] == [ok] && [BLANK, BLANK][0 := ok] == [ok, BLANK] && none + {1} == {1};
  }

  /** The second attempt, still without a connection, finds a status line in its response. */
  lemma LateLineIsKept() returns (end: HttpContent.State)
    ensures Ends(HttpContent.Begin(true, 1), LATE_LINE, end)
    ensures end.content == [HttpFailures.OK_CONTENT] && end.own == [HttpFailures.OK_CONTENT, BLANK]
    ensures end.touched == {1}
  {
    hide Leads;
    hide Ends;
    hide E.Leads;
    hide HttpContent.Inv;
    hide HttpExchange.Inv;
    hide HttpFailures.OK_CONTENT;
    hide HttpFailures.STATUS_LINE;
    hide E.AfterNewCall;
    hide E.AfterMade;
    hide E.AfterElapse;
    hide E.AfterRetry;
    hide E.Vetoed;
    hide E.FIRST;
    hide Called;
    hide Retried;
    var es := LATE_LINE;
    var y1, y2, y3, y4 := Called(E.AfterNewCall()), Called(E.AfterMade()), Called(E.AfterElapse()), Retried();
    E.FirstFour();
    CallLeads();
    LeadsInv(HttpContent.Begin(true, 1), es[0], y1);
    MadeLeads();
    LeadsInv(y1, es[1], y2);
    ElapseLeads();
    LeadsInv(y2, es[2], y3);
    VetoLeads();
    LeadsInv(y3, es[3], y4);
    end := LineLeads();
    LeadsInv(y4, es[4], end);
    EndsHere(end);
    assert es[5..] == [] && es[0..] == es;
    At(y4, end, es, 4, end);
    At(y3, y4, es, 3, end);
    At(y2, y3, es, 2, end);
    At(y1, y2, es, 1, end);
    At(HttpContent.Begin(true, 1), y1, es, 0, end);
  }

  lemma LeadsInv(y: HttpContent.State, e: HttpExchange.Event, next: HttpContent.State)
    requires Leads(y, e, next)
    ensures HttpContent.Inv(next)
  {
  }

  lemma EndsHere(y: HttpContent.State)
    requires HttpContent.Inv(y)
    ensures Ends(y, [], y)
  {
    hide HttpContent.Inv;
  }
}
