/**
 * What the response objects hold on a run of the client: one content for each call, shared by
 * all connections that ever worked for the call.
 */
module HttpContent {
  import opened Prelude
  import opened Response
  import opened HttpReader
  import opened HttpOutcome
  import HttpExchange
  import HttpSteps
  import HttpSystem
  import Client

  /**
   * `content[k]` is what the response of call `k` holds. `own[a]` is what it would hold if since
   * the beginning of attempt `a` only its own connection had written to it. `touched` holds the
   * attempts during which another connection's read callback ran on the response, and `given[a]`
   * the content that attempt `a` was settled with, next to its own.
   */
  datatype State = State(
    exchange: HttpExchange.State,
    content: seq<Content>,
    own: seq<Content>,
    touched: set<nat>,
    given: map<nat, (Content, Content)>)

  function Begin(limit: bool, max: nat): State {
    State(HttpExchange.Begin(limit, max), [], [], {}, map[])
  }

  function With(r: Reader, content: Content): Reader
    requires r.res.Some?
  {
    r.(res := Some(r.res.value.(content := content)))
  }

  /** Something happens to a connection that has a response; `Overwritten` is made up below. */
  predicate OnResponse(s: HttpSystem.System, e: HttpSystem.Event) {
    e.On? && !e.event.Overwritten? && e.conn < |s.readers| && s.readers[e.conn].res.Some?
  }

  predicate Possible(y: State, e: HttpExchange.Event) {
    HttpExchange.Possible(y.exchange, e) && (e.Net? && e.event.On? ==> !e.event.event.Overwritten?)
  }

  ghost predicate Shape(y: State) {
    && HttpExchange.Inv(y.exchange)
    && |y.content| == |y.exchange.book.calls| && |y.own| == |y.exchange.book.owner|
    && (forall a <- y.touched :: a < |y.own|)
  }

  /** The content may change before any event on the response. */
  lemma OverwrittenFirst(x: HttpExchange.State, e: HttpSystem.Event, content: Content)
    requires HttpExchange.Possible(x, HttpExchange.Net(e, [])) && OnResponse(x.system, e)
    ensures HttpExchange.Possible(x, HttpExchange.Net(HttpSystem.On(e.conn, Overwritten(content)), []))
  {
  }

  /** The response of the call is the one object that the reader works on. */
  function Refreshed(x: HttpExchange.State, e: HttpSystem.Event, content: Content): HttpExchange.State
    requires HttpExchange.Inv(x) && HttpExchange.Possible(x, HttpExchange.Net(e, [])) && OnResponse(x.system, e)
  {
    var c := e.conn;
    hide *;
    OverwrittenFirst(x, e, content);
    InvShape(x);
    HttpExchange.Next(x, HttpExchange.Net(HttpSystem.On(c, Overwritten(content)), []))
  }

  lemma InvShape(x: HttpExchange.State)
    requires HttpExchange.Inv(x)
    ensures HttpExchange.Shape(x) && HttpSystem.Linked(x.system)
  {
    hide HttpSystem.Linked;
  }

  /** What a callback leaves in the response. */
  function LeftBy(r: Reader, e: Event): Content
    requires Consistent(r) && Allowed(r, e) && !e.Write? && r.res.Some?
  {
    AfterOutcome(r, e);
    var after := After(r, e);
    match Report(NewCalls(r, after))
    case Some(report) => HttpExchange.Left(after, report)
    case None => after.res.value.content
  }

  lemma SameButContent(r: Reader, content: Content, e: Event)
    requires Consistent(r) && Allowed(r, e) && r.res.Some?
    ensures Consistent(With(r, content)) && Allowed(With(r, content), e)
  {
  }

  lemma ContentStays(r: Reader, e: Event)
    requires Consistent(r) && Allowed(r, e) && !e.Write? && !e.Text? && !e.Overwritten? && r.res.Some?
    ensures After(r, e).res.Some? && After(r, e).res.value.content == r.res.value.content
  {
  }

  /** Only read callbacks change the content. */
  lemma OthersLeave(r: Reader, e: Event)
    requires Consistent(r) && Allowed(r, e) && !e.Write? && !e.Text? && !e.Overwritten? && r.res.Some?
    ensures LeftBy(r, e) == r.res.value.content
  {
    ContentStays(r, e);
    AfterOutcome(r, e);
    hide After;
    hide Report;
  }

  /** A status line that is read in full replaces what an earlier one has set. */
  lemma StatusLineOverwrites(r: Reader, before: Content, line: string)
    requires Consistent(r) && Allowed(r, Text(line)) && r.want == StatusLine && r.res.Some?
    requires before.headers == r.res.value.content.headers && before.body == r.res.value.content.body
    requires ParseStatusLine(before, line).0.Ok?
    ensures Consistent(With(r, before)) && LeftBy(With(r, before), Text(line)) == LeftBy(r, Text(line))
  {
    SameButContent(r, before, Text(line));
    StatusLineLeaves(r, line);
    StatusLineLeaves(With(r, before), line);
  }

  lemma StatusLineLeaves(r: Reader, line: string)
    requires Consistent(r) && Allowed(r, Text(line)) && r.want == StatusLine && r.res.Some?
    ensures LeftBy(r, Text(line)) == ParseStatusLine(r.res.value.content, line).1
  {
    AfterOutcome(r, Text(line));
    hide ParseStatusLine;
    hide Ending;
  }

  /** Handing the reader the shared content is all that this does. */
  lemma RefreshedIs(x: HttpExchange.State, e: HttpSystem.Event, content: Content)
    requires HttpExchange.Inv(x) && HttpExchange.Possible(x, HttpExchange.Net(e, [])) && OnResponse(x.system, e)
    ensures var x1, r := Refreshed(x, e, content), x.system.readers[e.conn];
            && HttpExchange.Inv(x1) && x1.book == x.book
            && x1.system == x.system.(readers := x.system.readers[e.conn := With(r, content)])
            && HttpSystem.Possible(x1.system, e)
  {
    hide HttpSystem.Linked;
    hide HttpExchange.Reports;
    hide HttpExchange.Kept;
    hide Report;
    var c, r, o := e.conn, x.system.readers[e.conn], HttpSystem.On(e.conn, Overwritten(content));
    HttpSystem.ReaderOf(x.system, c);
    NewCallsAre(r, With(r, content), []);
    assert HttpExchange.Heard(x.system, o) == None;
    HttpExchange.InvKept(x, HttpExchange.Net(o, []));
    SameButContent(r, content, e.event);
  }

  // ---- The steps. ----

  function Next(y: State, e: HttpExchange.Event): State
    requires Shape(y) && Possible(y, e)
  {
    match e
    case NewCall =>
      y.(exchange := HttpExchange.Next(y.exchange, e), content := y.content + [BLANK], own := y.own + [BLANK])
    case Net(event, verdicts) =>
      if OnResponse(y.exchange.system, event) then OnShared(y, event, verdicts)
      else y.(exchange := HttpExchange.Next(y.exchange, e))
  }

  /** The attempt that the connection works on, and its call. */
  function AttemptOf(y: State, event: HttpSystem.Event): (b: nat)
    requires Shape(y) && OnResponse(y.exchange.system, event)
    ensures b < |y.own| && y.exchange.book.owner[b] < |y.content|
  {
    HttpSteps.ReaderPlaced(y.exchange.system, event.conn);
    y.exchange.system.readers[event.conn].res.value.id
  }

  /** The callback works on the shared content; what its connection has read alone is kept beside. */
  function OnShared(y: State, event: HttpSystem.Event, verdicts: seq<Client.Verdict>): State
    requires Shape(y) && Possible(y, HttpExchange.Net(event, verdicts)) && OnResponse(y.exchange.system, event)
  {
    var x, m, r := y.exchange, y.exchange.book, y.exchange.system.readers[event.conn];
    var b := AttemptOf(y, event);
    var k := m.owner[b];
    RefreshedIs(x, event, y.content[k]);
    HttpSystem.ReaderOf(x.system, event.conn);
    SameButContent(r, y.content[k], event.event);
    SameButContent(r, y.own[b], event.event);
    var next := HttpExchange.Next(Refreshed(x, event, y.content[k]), HttpExchange.Net(event, verdicts));
    var left, alone := LeftBy(With(r, y.content[k]), event.event), LeftBy(With(r, y.own[b]), event.event);
    Recorded(y, event, next, b, left, alone)
  }

  /** The books of `content` and `own` after an event on the connection of attempt `b`. */
  function Recorded(
      y: State, event: HttpSystem.Event, next: HttpExchange.State, b: nat, left: Content, alone: Content): State
    requires Shape(y) && b < |y.own| && event.On?
  {
    var m, k := y.exchange.book, y.exchange.book.owner[b];
    var a, own := m.latest[k], y.own[b := alone];
    var again := |next.book.owner| > |m.owner|;
    State(next,
          y.content[k := if again then Cleared(left) else left],
          if again then own + [Cleared(left)] else own,
          if event.event.Text? && b != a then y.touched + {a} else y.touched,
          if a in next.book.settledBy && a !in m.settledBy then y.given[a := (left, own[a])] else y.given)
  }

  // ---- The invariant. ----

  /** Unless it was touched, the latest attempt's response holds what its own connection read. */
  ghost predicate Private(y: State)
    requires Shape(y)
  {
    forall k: nat | k < |y.content| ::
      y.exchange.book.latest[k] !in y.touched ==> y.content[k] == y.own[y.exchange.book.latest[k]]
  }

  ghost predicate GivenOwn(y: State) {
    && y.given.Keys == y.exchange.book.settledBy.Keys
    && forall a <- y.given ::
         y.exchange.book.settledBy[a] == a && a !in y.touched ==> y.given[a].0 == y.given[a].1
  }

  ghost predicate Inv(y: State) {
    Shape(y) && Private(y) && GivenOwn(y)
  }

  lemma BeginInv(limit: bool, max: nat)
    ensures Inv(Begin(limit, max))
  {
    HttpExchange.BeginInv(limit, max);
  }

  /** What one event of the network does to the book of the calls. */
  lemma BookStep(x: HttpExchange.State, event: HttpSystem.Event, verdicts: seq<Client.Verdict>)
    requires HttpExchange.Inv(x) && HttpExchange.Possible(x, HttpExchange.Net(event, verdicts))
    requires event.On? ==> !event.event.Overwritten?
    ensures var m, next := x.book, HttpExchange.Next(x, HttpExchange.Net(event, verdicts)).book;
            && |next.calls| == |m.calls|
            && (if OnResponse(x.system, event) && x.system.readers[event.conn].res.value.id < |m.owner| then
                  var b := x.system.readers[event.conn].res.value.id;
                  var k := m.owner[b];
                  k < |m.latest| && Follows(m, next, k, b)
                else next == m)
  {
    hide HttpSystem.Linked;
    hide HttpSystem.Next;
    hide HttpSystem.Possible;
    hide HttpExchange.Heard;
    hide HttpExchange.Reports;
    hide HttpExchange.History;
    hide HttpExchange.SameCall;
    hide HttpExchange.Attribution;
    hide HttpSteps.Own;
    assert HttpExchange.Sized(x.book) && HttpExchange.Attempts(x.book, None);
    if HttpExchange.Heard(x.system, event).Some? {
      HttpExchange.HeardFacts(x.system, event);
    }
  }

  /** An attempt is settled with the content that the reporting callback leaves. */
  lemma RoundContent(x: HttpExchange.State, event: HttpSystem.Event, verdicts: seq<Client.Verdict>)
    requires HttpExchange.Inv(x) && HttpExchange.Possible(x, HttpExchange.Net(event, verdicts))
    requires OnResponse(x.system, event)
    ensures var m, next, r := x.book, HttpExchange.Next(x, HttpExchange.Net(event, verdicts)).book,
                              x.system.readers[event.conn];
            next.settledBy != m.settledBy ==>
              && Consistent(r) && r.res.value.id < |m.owner| && m.owner[r.res.value.id] < |m.rounds| == |next.rounds|
              && var k := m.owner[r.res.value.id];
              && |next.rounds[k]| == |m.rounds[k]| + 1
              && next.rounds[k][|m.rounds[k]|].content == LeftBy(r, event.event)
  {
    hide HttpSystem.Linked;
    hide HttpSystem.Next;
    hide HttpExchange.Reports;
    hide HttpExchange.Kept;
    hide After;
    assert HttpSystem.Linked(x.system);
    HttpSystem.ReaderOf(x.system, event.conn);
    if HttpExchange.Heard(x.system, event).Some? {
      HttpExchange.HeardFacts(x.system, event);
    }
  }

  // ---- Each step keeps it. ----

  lemma NewCallKeeps(y: State)
    requires Inv(y) && Possible(y, HttpExchange.NewCall)
    ensures Inv(Next(y, HttpExchange.NewCall))
  {
    hide HttpExchange.Inv;
    hide HttpExchange.Next;
    hide HttpSystem.Sound;
    NewCallBook(y.exchange);
    HttpExchange.InvKept(y.exchange, HttpExchange.NewCall);
    var m, next := y.exchange.book, Next(y, HttpExchange.NewCall);
    forall k: nat | k < |next.content| && next.exchange.book.latest[k] !in next.touched
      ensures next.content[k] == next.own[next.exchange.book.latest[k]]
    {
      assert k < |m.latest| ==> next.exchange.book.latest[k] == m.latest[k] < |y.own|;
    }
  }

  lemma NewCallBook(x: HttpExchange.State)
    requires HttpExchange.Inv(x) && HttpExchange.Possible(x, HttpExchange.NewCall)
    ensures var m, next := x.book, HttpExchange.Next(x, HttpExchange.NewCall).book;
            && next.settledBy == m.settledBy && |next.calls| == |m.calls| + 1
            && next.latest == m.latest + [|m.owner|] && |next.owner| == |m.owner| + 1
            && |m.latest| == |m.calls| && forall k: nat | k < |m.latest| :: m.latest[k] < |m.owner|
  {
    hide HttpSystem.Linked;
    hide HttpSystem.Next;
    hide HttpExchange.Reports;
  }

  lemma QuietKeeps(y: State, event: HttpSystem.Event, verdicts: seq<Client.Verdict>)
    requires Inv(y) && Possible(y, HttpExchange.Net(event, verdicts)) && !OnResponse(y.exchange.system, event)
    ensures Inv(Next(y, HttpExchange.Net(event, verdicts)))
  {
    hide HttpExchange.Inv;
    hide HttpExchange.Next;
    hide HttpSystem.Possible;
    HttpExchange.InvKept(y.exchange, HttpExchange.Net(event, verdicts));
    BookStep(y.exchange, event, verdicts);
  }

  lemma SharedKeeps(y: State, event: HttpSystem.Event, verdicts: seq<Client.Verdict>)
    requires Inv(y) && Possible(y, HttpExchange.Net(event, verdicts)) && OnResponse(y.exchange.system, event)
    ensures Inv(Next(y, HttpExchange.Net(event, verdicts)))
  {
    var x, r := y.exchange, y.exchange.system.readers[event.conn];
    var b := AttemptOf(y, event);
    var k := x.book.owner[b];
    RefreshedIs(x, event, y.content[k]);
    var x1 := Refreshed(x, event, y.content[k]);
    HttpExchange.InvKept(x1, HttpExchange.Net(event, verdicts));
    BookStep(x1, event, verdicts);
    var next := HttpExchange.Next(x1, HttpExchange.Net(event, verdicts));
    HttpSystem.ReaderOf(x.system, event.conn);
    SameButContent(r, y.content[k], event.event);
    SameButContent(r, y.own[b], event.event);
    if !event.event.Text? {
      OthersLeave(With(r, y.content[k]), event.event);
    }
    var left, alone := LeftBy(With(r, y.content[k]), event.event), LeftBy(With(r, y.own[b]), event.event);
    RecordedKeeps(y, event, next, b, left, alone);
  }

  /** The book after the event, as far as attempts of call `k` are begun and settled by `b`. */
  predicate Follows(m: HttpExchange.Book, next: HttpExchange.Book, k: nat, b: nat)
    requires k < |m.latest|
  {
    && (next.settledBy == m.settledBy ||
        (m.latest[k] !in m.settledBy && next.settledBy == m.settledBy[m.latest[k] := b]))
    && (if |next.owner| > |m.owner|
        then next.owner == m.owner + [k] && next.latest == m.latest[k := |m.owner|]
        else next.owner == m.owner && next.latest == m.latest)
  }

  lemma RecordedKeeps(
      y: State, event: HttpSystem.Event, next: HttpExchange.State, b: nat, left: Content, alone: Content)
    requires Inv(y) && HttpExchange.Inv(next) && b < |y.own| && event.On?
    requires |next.book.calls| == |y.exchange.book.calls|
    requires Follows(y.exchange.book, next.book, y.exchange.book.owner[b], b)
    requires y.content[y.exchange.book.owner[b]] == y.own[b] ==> left == alone
    requires !event.event.Text? ==> left == y.content[y.exchange.book.owner[b]]
    ensures Inv(Recorded(y, event, next, b, left, alone))
  {
    assert HttpExchange.Sized(y.exchange.book) && HttpExchange.Sized(next.book);
    hide HttpExchange.Inv;
    RecordedPrivate(y, event, next, b, left, alone);
    RecordedGiven(y, event, next, b, left, alone);
  }

  lemma RecordedPrivate(
      y: State, event: HttpSystem.Event, next: HttpExchange.State, b: nat, left: Content, alone: Content)
    requires Shape(y) && Private(y) && HttpExchange.Inv(next) && b < |y.own| && event.On?
    requires |next.book.calls| == |y.exchange.book.calls|
    requires Follows(y.exchange.book, next.book, y.exchange.book.owner[b], b)
    requires HttpExchange.Sized(y.exchange.book) && HttpExchange.Sized(next.book)
    requires y.content[y.exchange.book.owner[b]] == y.own[b] ==> left == alone
    requires !event.event.Text? ==> left == y.content[y.exchange.book.owner[b]]
    ensures Shape(Recorded(y, event, next, b, left, alone)) && Private(Recorded(y, event, next, b, left, alone))
  {
    hide HttpExchange.Inv;
    var m, k, end := y.exchange.book, y.exchange.book.owner[b], Recorded(y, event, next, b, left, alone);
    var a := m.latest[k];
    assert a !in end.touched ==> left == y.own[b := alone][a];
    forall j: nat | j < |end.content| && next.book.latest[j] !in end.touched
      ensures end.content[j] == end.own[next.book.latest[j]]
    {
      if j != k {
        assert next.book.latest[j] == m.latest[j] && m.owner[m.latest[j]] == j;
      }
    }
  }

  lemma RecordedGiven(
      y: State, event: HttpSystem.Event, next: HttpExchange.State, b: nat, left: Content, alone: Content)
    requires Shape(y) && Private(y) && GivenOwn(y) && b < |y.own| && event.On?
    requires HttpExchange.Sized(y.exchange.book)
    requires Follows(y.exchange.book, next.book, y.exchange.book.owner[b], b)
    requires y.content[y.exchange.book.owner[b]] == y.own[b] ==> left == alone
    ensures GivenOwn(Recorded(y, event, next, b, left, alone))
  {
    hide HttpExchange.Inv;
    var m, k, end := y.exchange.book, y.exchange.book.owner[b], Recorded(y, event, next, b, left, alone);
    var a := m.latest[k];
    assert k < |y.content| && a < |y.own| && (a !in y.touched ==> y.content[k] == y.own[a]);
    hide HttpExchange.Sized;
    assert end.given.Keys == next.book.settledBy.Keys;
    forall d <- end.given
      ensures next.book.settledBy[d] == d && d !in end.touched ==> end.given[d].0 == end.given[d].1
    {
      if d != a || a in m.settledBy {
        assert d in y.given;
      }
    }
  }

  lemma InvKept(y: State, e: HttpExchange.Event)
    requires Inv(y) && Possible(y, e)
    ensures Inv(Next(y, e))
  {
    match e {
      case NewCall => NewCallKeeps(y);
      case Net(event, verdicts) =>
        if OnResponse(y.exchange.system, event) {
          SharedKeeps(y, event, verdicts);
        } else {
          QuietKeeps(y, event, verdicts);
        }
    }
  }

  // ---- Every run. ----

  ghost predicate AllPossible(y: State, events: seq<HttpExchange.Event>)
    requires Inv(y)
    decreases |events|
  {
    events == [] ||
    (Possible(y, events[0]) && (InvKept(y, events[0]); AllPossible(Next(y, events[0]), events[1..])))
  }

  ghost function Run(y: State, events: seq<HttpExchange.Event>): State
    requires Inv(y) && AllPossible(y, events)
    decreases |events|
  {
    if events == [] then y else InvKept(y, events[0]); Run(Next(y, events[0]), events[1..])
  }

  /**
   * On every run: an attempt that is settled by its own connection is settled with exactly what
   * this connection read, unless a read callback of another connection ran on the response
   * during the attempt.
   */
  lemma {:induction false} SettledWithItsOwn(y: State, events: seq<HttpExchange.Event>)
    requires Inv(y) && AllPossible(y, events)
    ensures Inv(Run(y, events))
    ensures var end := Run(y, events);
            && end.given.Keys == end.exchange.book.settledBy.Keys
            && forall a <- end.given ::
                 end.exchange.book.settledBy[a] == a && a !in end.touched ==> end.given[a].0 == end.given[a].1
    decreases |events|
  {
    hide Shape;
    hide Next;
    if events != [] {
      InvKept(y, events[0]);
      SettledWithItsOwn(Next(y, events[0]), events[1..]);
    }
  }
}
