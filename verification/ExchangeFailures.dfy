/** A concrete run of a new client on which a connection settles an attempt that is not its own. */
module ExchangeFailures {
  import opened Prelude
  import opened Response
  import opened HttpReader
  import opened HttpOutcome
  import opened HttpExchange
  import HttpSteps
  import HttpSystem
  import Client
  import Pool
  import PoolRuns
  import PoolFailures

  /** The event may happen, and this is where it leads. */
  ghost predicate Leads(x: HttpExchange.State, e: HttpExchange.Event, next: HttpExchange.State) {
    Inv(x) && HttpExchange.Possible(x, e) && Inv(next) && HttpExchange.Next(x, e) == next
  }

  /** The events are a run, and at its end the book is `m`. */
  ghost predicate Ends(x: HttpExchange.State, events: seq<HttpExchange.Event>, m: Book) {
    Inv(x) && HttpExchange.AllPossible(x, events) && HttpExchange.Run(x, events).book == m
  }

  /** One event of a run, when the rest is known. */
  lemma At(x: HttpExchange.State, next: HttpExchange.State, events: seq<HttpExchange.Event>, i: nat, m: Book)
    requires i < |events| && Leads(x, events[i], next) && Ends(next, events[i + 1..], m)
    ensures Ends(x, events[i..], m)
  {
    hide Inv;
    hide HttpExchange.Next;
    assert events[i..][1..] == events[i + 1..];
  }

  /**
   * A call's first connection stalls, a handler asks for a retry, and then the read that the
   * stalled connection had outstanding reports its failure.
   */
  const STALLED_VETOED_LATE: seq<HttpExchange.Event> := [
    NewCall,
    Net(HttpSystem.Made(0), []),
    Net(HttpSystem.On(0, Elapse), []),
    Net(HttpSystem.On(0, Timeout("stall")), [Client.Veto]),
    Net(HttpSystem.On(0, Disconnect("aborted")), [Client.Accept])]

  // ---- The readers and the pool. ----

  const WRITTEN := Attach(CONNECTED, 0, BLANK)
  const DUE := Elapsed(WRITTEN)
  const STALLED := TimedOut(DUE, "stall")

  function AfterNewCall(): HttpSystem.System {
    HttpSystem.System(PoolFailures.Requested(), [CONNECTED], {}, false)
  }

  function AfterMade(): HttpSystem.System {
    HttpSystem.System(PoolFailures.AtWork(), [WRITTEN], {}, false)
  }

  function AfterElapse(): HttpSystem.System {
    HttpSystem.System(PoolFailures.AtWork(), [DUE], {}, false)
  }

  function Closed(): PoolRuns.World {
    PoolFailures.AtWork().(pool := Pool.Pool([], [], [], true, 1), closed := {0})
  }

  function AfterStall(): HttpSystem.System {
    HttpSystem.System(Closed(), [STALLED], {}, false)
  }

  /** The pool opens a connection for the second attempt. */
  function Retrying(): PoolRuns.World {
    Closed().(pool := Pool.Pool([Pool.Slot(1, false)], [], [], true, 1), opening := map[1 := 1], conns := 2,
              place := [PoolRuns.Written(0), PoolRuns.Opening(1)])
  }

  function AfterRetry(): HttpSystem.System {
    HttpSystem.System(Retrying(), [STALLED, CONNECTED], {}, false)
  }

  /** What the event makes of a system that is linked. */
  ghost predicate SystemLeads(s: HttpSystem.System, e: HttpSystem.Event, next: HttpSystem.System) {
    HttpSystem.Linked(s) && HttpSystem.Possible(s, e) && HttpSystem.Next(s, e) == next
  }

  lemma RequestLeads()
    ensures SystemLeads(HttpSystem.Begin(true, 1), HttpSystem.Request, AfterNewCall())
  {
    hide HttpSystem.Linked;
    hide PoolRuns.DoNext;
    hide PoolRuns.Inv;
    HttpSystem.BeginLinked(true, 1);
    PoolFailures.RequestedIs();
    assert [] + [CONNECTED] == [CONNECTED];
  }

  lemma MadeLeads()
    requires HttpSystem.Linked(AfterNewCall())
    ensures SystemLeads(AfterNewCall(), HttpSystem.Made(0), AfterMade())
  {
    hide HttpSystem.Linked;
    hide PoolRuns.DoConnected;
    hide PoolRuns.Inv;
    PoolFailures.RequestedIs();
    PoolFailures.AtWorkIs();
    assert Pool.Slot(0, false) in PoolFailures.Requested().pool.slots;
    assert [CONNECTED][0 := WRITTEN] == [WRITTEN];
  }

  lemma ElapseLeads()
    requires HttpSystem.Linked(AfterMade())
    ensures SystemLeads(AfterMade(), HttpSystem.On(0, Elapse), AfterElapse())
    ensures Heard(AfterMade(), HttpSystem.On(0, Elapse)) == None
  {
    hide HttpSystem.Linked;
    assert [WRITTEN][0 := DUE] == [DUE];
    NewCallsAre(WRITTEN, DUE, []);
  }

  /** The timer's callback closes the connection first and reports then. */
  lemma StallCalls()
    ensures Consistent(DUE) && Allowed(DUE, Timeout("stall")) && After(DUE, Timeout("stall")) == STALLED
    ensures STALLED.calls == DUE.calls + [Remove, Fail(0, "stall")] && STALLED.closed && !STALLED.crashed
    ensures Report([Remove, Fail(0, "stall")]) == Some(Fail(0, "stall"))
  {
    assert DUE.calls + [Remove] + [Fail(0, "stall")] == DUE.calls + [Remove, Fail(0, "stall")];
    ReportOf(Fail(0, "stall"));
  }

  lemma StallCloses()
    ensures PoolRuns.DoClose(PoolFailures.AtWork(), 0) == Closed()
  {
    var none: set<nat> := {};
    var done := Pool.Slot(0, true);
    assert [done][1..] == [] && Pool.Kept([done], 0) == [] && Pool.MatchCount([done], 0) == 1;
    assert none + {0} == {0} && none - {0} == none;
  }

  lemma StallLeads()
    requires HttpSystem.Linked(AfterElapse())
    ensures SystemLeads(AfterElapse(), HttpSystem.On(0, Timeout("stall")), AfterStall())
    ensures Heard(AfterElapse(), HttpSystem.On(0, Timeout("stall"))) == Some(Fail(0, "stall"))
  {
    hide HttpSystem.Linked;
    hide PoolRuns.DoClose;
    hide Report;
    hide After;
    hide STALLED;
    StallCalls();
    StallCloses();
    NewCallsAre(DUE, STALLED, [Remove, Fail(0, "stall")]);
    assert [DUE][0 := STALLED] == [STALLED];
  }

  lemma RetryLeads()
    requires HttpSystem.Linked(AfterStall())
    ensures SystemLeads(AfterStall(), HttpSystem.Request, AfterRetry())
  {
    hide HttpSystem.Linked;
    var none: map<nat, nat> := map[];
    assert [] + [Pool.Slot(1, false)] == [Pool.Slot(1, false)] && none[1 := 1] == map[1 := 1];
    assert [PoolRuns.Written(0)] + [PoolRuns.Opening(1)] == [PoolRuns.Written(0), PoolRuns.Opening(1)];
    assert [STALLED] + [CONNECTED] == [STALLED, CONNECTED];
  }

  lemma LateHeard()
    requires HttpSystem.Linked(AfterRetry())
    ensures HttpSystem.Possible(AfterRetry(), HttpSystem.On(0, Disconnect("aborted")))
    ensures Heard(AfterRetry(), HttpSystem.On(0, Disconnect("aborted"))) == Some(LateFail(0, "aborted"))
  {
    hide HttpSystem.Linked;
    var after := Disconnected(STALLED, "aborted");
    NewCallsAre(STALLED, after, [LateFail(0, "aborted")]);
    ReportOf(LateFail(0, "aborted"));
  }

  // ---- The calls. ----

  const FIRST := Book([0], [0], [Client.Begin(BLANK)], [[]], {}, map[], {})

  function StallRound(): Client.Round {
    Client.Round(BLANK, Failed("stall"), [Client.Veto])
  }

  function LateRound(): Client.Round {
    Client.Round(BLANK, Failed("aborted"), [Client.Accept])
  }

  function Vetoed(): Book {
    Book([0, 0], [1], [Client.Settle(Client.Begin(BLANK), StallRound())], [[StallRound()]], {0}, map[0 := 0], {})
  }

  lemma FirstBook()
    ensures var m := HttpExchange.Begin(true, 1).book;
            |m.calls| == |WithCall(m).latest| == 0 && Asked(WithCall(m), 0) == FIRST
  {
    assert [] + [0] == [0] && [] + [Client.Begin(BLANK)] == [Client.Begin(BLANK)];
  }

  lemma CallLeads()
    ensures Leads(HttpExchange.Begin(true, 1), NewCall, HttpExchange.State(AfterNewCall(), FIRST))
  {
    var x := HttpExchange.Begin(true, 1);
    hide Kept;
    hide Reports;
    hide HttpSystem.Linked;
    hide HttpSystem.Next;
    hide AfterNewCall;
    hide WithCall;
    hide Asked;
    BeginInv(true, 1);
    FirstBook();
    RequestLeads();
    InvKept(x, NewCall);
  }

  lemma LinkedIn(s: HttpSystem.System, m: Book)
    requires Inv(HttpExchange.State(s, m))
    ensures HttpSystem.Linked(s)
  {
    hide HttpSystem.Linked;
  }

  lemma QuietLeads(s: HttpSystem.System, e: HttpSystem.Event, next: HttpSystem.System, m: Book)
    requires Inv(HttpExchange.State(s, m)) && SystemLeads(s, e, next) && !e.Request? && Heard(s, e) == None
    ensures Leads(HttpExchange.State(s, m), Net(e, []), HttpExchange.State(next, m))
  {
    hide HttpSystem.Next;
    hide Heard;
    InvKept(HttpExchange.State(s, m), Net(e, []));
    hide Inv;
  }

  /** A report that makes the handlers ask for a retry. */
  lemma RetriedNext(
      x: HttpExchange.State, e: HttpSystem.Event, verdicts: seq<Client.Verdict>, report: Call, round: Client.Round,
      s: HttpSystem.System, s2: HttpSystem.System, m: Book)
    requires Inv(x) && SystemLeads(x.system, e, s) && !e.Request? && Heard(x.system, e) == Some(report)
    requires e.On? && Left(HttpSteps.Own(x.system, e, e.conn), report) == round.content
    requires round == Client.Round(round.content, OutcomeOf(report), verdicts)
    requires report.id < |x.book.owner| && Sized(x.book) && Retries(x.book, report, round)
    requires x.book.owner[report.id] < |x.book.latest|
    requires Asked(Deliver(x.book, report, round), x.book.owner[report.id]) == m
    requires SystemLeads(s, HttpSystem.Request, s2)
    ensures Leads(x, Net(e, verdicts), HttpExchange.State(s2, m))
  {
    hide HttpSystem.Linked;
    hide HttpSystem.Next;
    hide HttpSystem.Possible;
    hide Heard;
    hide HttpSteps.Own;
    hide Kept;
    hide Reports;
    hide Sized;
    InvKept(x, Net(e, verdicts));
    HeardFacts(x.system, e);
    hide Deliver;
    hide Asked;
    hide Retries;
  }

  lemma VetoLeads()
    requires Inv(HttpExchange.State(AfterElapse(), FIRST))
    ensures Leads(HttpExchange.State(AfterElapse(), FIRST), STALLED_VETOED_LATE[3],
                  HttpExchange.State(AfterRetry(), Vetoed()))
  {
    var x, e := HttpExchange.State(AfterElapse(), FIRST), HttpSystem.On(0, Timeout("stall"));
    hide HttpSystem.Linked;
    hide HttpSystem.Next;
    hide HttpSystem.Possible;
    hide Heard;
    hide Inv;
    hide AfterElapse;
    hide AfterStall;
    hide AfterRetry;
    hide Leads;
    hide Deliver;
    hide Asked;
    hide Retries;
    hide FIRST;
    hide Vetoed;
    LinkedIn(AfterElapse(), FIRST);
    StallLeads();
    HttpSystem.NextLinked(AfterElapse(), e);
    RetryLeads();
    StallLeft();
    VetoBook();
    RetriedNext(x, e, [Client.Veto], Fail(0, "stall"), StallRound(), AfterStall(), AfterRetry(), Vetoed());
  }

  /** The response is still blank when the stall is reported. */
  lemma StallLeft()
    requires HttpSystem.Linked(AfterElapse()) && HttpSystem.Possible(AfterElapse(), HttpSystem.On(0, Timeout("stall")))
    ensures Left(HttpSteps.Own(AfterElapse(), HttpSystem.On(0, Timeout("stall")), 0), Fail(0, "stall")) == BLANK
  {
    hide HttpSystem.Linked;
  }

  lemma VetoBook()
    ensures Sized(FIRST) && FIRST.owner == [0] && |FIRST.latest| == 1 && Retries(FIRST, Fail(0, "stall"), StallRound())
    ensures Asked(Deliver(FIRST, Fail(0, "stall"), StallRound()), 0) == Vetoed()
  {
    assert [Client.Veto][0] == Client.Veto;
    assert [0] + [0] == [0, 0] && [] + [StallRound()] == [StallRound()];
    var none: set<nat> := {};
    assert none + {0} == {0};
  }

  /** A report that the handlers accept. */
  lemma AcceptedNext(
      x: HttpExchange.State, e: HttpSystem.Event, verdicts: seq<Client.Verdict>, report: Call, round: Client.Round)
    returns (next: HttpExchange.State)
    requires Inv(x) && HttpSystem.Possible(x.system, e) && HttpSystem.Linked(x.system)
    requires !e.Request? && Heard(x.system, e) == Some(report)
    requires e.On? && Left(HttpSteps.Own(x.system, e, e.conn), report) == round.content
    requires round == Client.Round(round.content, OutcomeOf(report), verdicts)
    requires report.id < |x.book.owner| && Sized(x.book) && !Retries(x.book, report, round)
    ensures Leads(x, Net(e, verdicts), next) && next.book == Deliver(x.book, report, round)
  {
    hide HttpSystem.Linked;
    hide HttpSystem.Next;
    hide HttpSystem.Possible;
    hide Heard;
    hide HttpSteps.Own;
    hide Kept;
    hide Reports;
    hide Sized;
    InvKept(x, Net(e, verdicts));
    HeardFacts(x.system, e);
    hide Deliver;
    hide Asked;
    hide Retries;
    next := HttpExchange.Next(x, Net(e, verdicts));
  }

  lemma LateLeads() returns (next: HttpExchange.State)
    requires Inv(HttpExchange.State(AfterRetry(), Vetoed()))
    ensures var x := HttpExchange.State(AfterRetry(), Vetoed());
            Leads(x, Net(HttpSystem.On(0, Disconnect("aborted")), [Client.Accept]), next)
    ensures next.book == Deliver(Vetoed(), LateFail(0, "aborted"), LateRound())
  {
    var x, e := HttpExchange.State(AfterRetry(), Vetoed()), HttpSystem.On(0, Disconnect("aborted"));
    hide HttpSystem.Linked;
    hide HttpSystem.Possible;
    hide Heard;
    hide Inv;
    hide AfterRetry;
    hide Leads;
    hide Deliver;
    hide Retries;
    hide Vetoed;
    LinkedIn(AfterRetry(), Vetoed());
    LateHeard();
    LateLeft();
    LateBook();
    next := AcceptedNext(x, e, [Client.Accept], LateFail(0, "aborted"), LateRound());
  }

  /** The response is blank again when the late failure is reported. */
  lemma LateLeft()
    requires HttpSystem.Linked(AfterRetry())
    requires HttpSystem.Possible(AfterRetry(), HttpSystem.On(0, Disconnect("aborted")))
    ensures var e := HttpSystem.On(0, Disconnect("aborted"));
            Left(HttpSteps.Own(AfterRetry(), e, 0), LateFail(0, "aborted")) == BLANK
  {
    hide HttpSystem.Linked;
    assert HttpSteps.Own(AfterRetry(), HttpSystem.On(0, Disconnect("aborted")), 0) == Disconnected(STALLED, "aborted");
  }

  lemma LeadsLinked(x: HttpExchange.State, e: HttpExchange.Event, next: HttpExchange.State)
    requires Leads(x, e, next)
    ensures Inv(next) && HttpSystem.Linked(next.system)
  {
  }

  lemma QuietMade()
    requires HttpSystem.Linked(AfterNewCall()) && HttpSystem.Possible(AfterNewCall(), HttpSystem.Made(0))
    ensures Heard(AfterNewCall(), HttpSystem.Made(0)) == None
  {
  }

  lemma EndsHere(x: HttpExchange.State)
    requires Inv(x)
    ensures Ends(x, [], x.book)
  {
    hide Inv;
  }

  lemma LateBook()
    ensures Sized(Vetoed()) && Vetoed().owner == [0, 0] && !Retries(Vetoed(), LateFail(0, "aborted"), LateRound())
    ensures Deliver(Vetoed(), LateFail(0, "aborted"), LateRound()).settledBy == map[0 := 0, 1 := 0]
    ensures Deliver(Vetoed(), LateFail(0, "aborted"), LateRound()).owner == [0, 0]
  {
    assert [Client.Veto][0] == Client.Veto && [Client.Accept][0] == Client.Accept;
    assert [Client.Accept][1..] == [];
  }

  /** The run up to the retry, event by event. */
  lemma FirstFour()
    ensures var es := STALLED_VETOED_LATE;
            && Leads(HttpExchange.Begin(true, 1), es[0], HttpExchange.State(AfterNewCall(), FIRST))
            && Leads(HttpExchange.State(AfterNewCall(), FIRST), es[1], HttpExchange.State(AfterMade(), FIRST))
            && Leads(HttpExchange.State(AfterMade(), FIRST), es[2], HttpExchange.State(AfterElapse(), FIRST))
            && Leads(HttpExchange.State(AfterElapse(), FIRST), es[3], HttpExchange.State(AfterRetry(), Vetoed()))
            && Inv(HttpExchange.State(AfterRetry(), Vetoed()))
  {
    hide Leads;
    hide Inv;
    hide HttpSystem.Linked;
    hide HttpSystem.Possible;
    hide HttpSystem.Next;
    hide Heard;
    hide AfterNewCall;
    hide AfterMade;
    hide AfterElapse;
    hide AfterRetry;
    hide Vetoed;
    hide FIRST;
    hide Sized;
    hide Deliver;
    hide Retries;
    var es := STALLED_VETOED_LATE;
    var x1, x2 := HttpExchange.State(AfterNewCall(), FIRST), HttpExchange.State(AfterMade(), FIRST);
    CallLeads();
    LeadsLinked(HttpExchange.Begin(true, 1), es[0], x1);
    MadeLeads();
    QuietMade();
    QuietLeads(AfterNewCall(), HttpSystem.Made(0), AfterMade(), FIRST);
    LeadsLinked(x1, es[1], x2);
    ElapseLeads();
    QuietLeads(AfterMade(), HttpSystem.On(0, Elapse), AfterElapse(), FIRST);
    LeadsLinked(x2, es[2], HttpExchange.State(AfterElapse(), FIRST));
    VetoLeads();
    LeadsLinked(HttpExchange.State(AfterElapse(), FIRST), es[3], HttpExchange.State(AfterRetry(), Vetoed()));
  }

  /** The second attempt of the call is settled by the connection of the first one. */
  lemma StalledVetoedLate() returns (m: Book)
    ensures Ends(HttpExchange.Begin(true, 1), STALLED_VETOED_LATE, m)
    ensures m.settledBy == map[0 := 0, 1 := 0] && m.owner == [0, 0] && Misattributed(m, 0)
  {
    hide Leads;
    hide Ends;
    hide Inv;
    hide HttpSystem.Linked;
    hide AfterNewCall;
    hide AfterMade;
    hide AfterElapse;
    hide AfterRetry;
    hide Vetoed;
    hide FIRST;
    hide Sized;
    hide Deliver;
    hide Retries;
    var es := STALLED_VETOED_LATE;
    var x1, x2 := HttpExchange.State(AfterNewCall(), FIRST), HttpExchange.State(AfterMade(), FIRST);
    var x3, x4 := HttpExchange.State(AfterElapse(), FIRST), HttpExchange.State(AfterRetry(), Vetoed());
    FirstFour();
    var x5 := LateLeads();
    LateBook();
    LeadsLinked(x4, es[4], x5);
    m := x5.book;
    assert m.settledBy[1] == 0 && m.owner[1] == 0;
    EndsHere(x5);
    assert es[5..] == [] && es[0..] == es;
    At(x4, x5, es, 4, m);
    At(x3, x4, es, 3, m);
    At(x2, x3, es, 2, m);
    At(x1, x2, es, 1, m);
    At(HttpExchange.Begin(true, 1), x1, es, 0, m);
  }
}
