/** What the rounds of a call hold, against the reports of its connections on a run. */
module HttpRounds {
  import opened Prelude
  import opened Response
  import opened HttpReader
  import opened HttpOutcome
  import opened HttpExchange
  import HttpSteps
  import HttpSystem
  import Client

  /** A completed attempt has the status of the response it was completed with, a failed one its reason. */
  function RoundOf(own: Reader, report: Call, verdicts: seq<Client.Verdict>): Client.Round
    requires IsReport(report) && (IsFailure(report) ==> own.res.Some?)
  {
    match report
    case Settle(_, content) => Client.Round(content, Done(content.status), verdicts)
    case LateSettle(_, content) => Client.Round(content, Done(content.status), verdicts)
    case Fail(_, why) => Client.Round(own.res.value.content, Failed(why), verdicts)
    case LateFail(_, why) => Client.Round(own.res.value.content, Failed(why), verdicts)
  }

  function RoundsFor(m: Book, k: nat): seq<Client.Round> {
    if k < |m.rounds| then m.rounds[k] else []
  }

  /** All rounds of the call so far were vetoed. */
  predicate StillOpen(m: Book, k: nat) {
    k < |m.rounds| && forall i | 0 <= i < |m.rounds[k]| :: Client.Decide(m.rounds[k][i].verdicts) == Client.Veto
  }

  /** The round that an event adds to call `k`: a report on one of its attempts, while the call is open. */
  ghost function ToldBy(x: State, e: HttpExchange.Event, k: nat): seq<Client.Round>
    requires Inv(x) && Possible(x, e)
  {
    if e.Net? && Heard(x.system, e.event).Some? then
      HeardFacts(x.system, e.event);
      FailureKeepsResponse(x.system, e.event);
      var report := Heard(x.system, e.event).value;
      if x.book.owner[report.id] == k && StillOpen(x.book, k) then
        [RoundOf(HttpSteps.Own(x.system, e.event, e.event.conn), report, e.verdicts)]
      else []
    else []
  }

  lemma FailureKeepsResponse(s: HttpSystem.System, e: HttpSystem.Event)
    requires HttpSystem.Linked(s) && HttpSystem.Possible(s, e) && Heard(s, e).Some?
    ensures IsFailure(Heard(s, e).value) ==> HttpSteps.Own(s, e, e.conn).res.Some?
  {
    hide HttpSystem.Linked;
    hide After;
    HttpSystem.ReaderOf(s, e.conn);
    AfterOutcome(s.readers[e.conn], e.event);
  }

  ghost function Told(x: State, events: seq<HttpExchange.Event>, k: nat): seq<Client.Round>
    requires Inv(x) && AllPossible(x, events)
    decreases |events|
  {
    if events == [] then []
    else
      InvKept(x, events[0]);
      ToldBy(x, events[0], k) + Told(Next(x, events[0]), events[1..], k)
  }

  /** A call is open exactly while its rounds are vetoed. */
  lemma OpenIffVetoed(m: Book, k: nat)
    requires Kept(m, None) && k < |m.calls|
    ensures m.calls[k].current.None? <==> StillOpen(m, k)
  {
    hide Attempts;
    hide SameCall;
    hide Attribution;
    hide Count;
    hide Client.Decide;
    Client.FirstDecidedWins(Client.Begin(BLANK), m.rounds[k]);
    hide Client.SettleAll;
  }

  lemma RoundIs(own: Reader, report: Call, verdicts: seq<Client.Verdict>)
    requires IsReport(report) && (IsFailure(report) ==> own.res.Some?)
    ensures Client.Round(Left(own, report), OutcomeOf(report), verdicts) == RoundOf(own, report, verdicts)
  {
  }

  lemma DeliverRound(m: Book, report: Call, round: Client.Round, k: nat)
    requires Sized(m) && IsReport(report) && report.id < |m.owner|
    ensures RoundsFor(Deliver(m, report, round), k) == RoundsFor(m, k) +
            if m.owner[report.id] == k && m.calls[k].current.None? then [round] else []
  {
    hide Client.Settle;
    assert RoundsFor(m, k) + [] == RoundsFor(m, k);
  }

  lemma RoundStep(x: State, e: HttpExchange.Event, k: nat)
    requires Inv(x) && Possible(x, e)
    ensures RoundsFor(Next(x, e).book, k) == RoundsFor(x.book, k) + ToldBy(x, e, k)
  {
    hide HttpSystem.Linked;
    hide HttpSystem.Next;
    hide HttpSystem.Possible;
    hide HttpSteps.Own;
    hide HttpSteps.Advances;
    hide Heard;
    hide Report;
    hide Reports;
    hide Deliver;
    hide StillOpen;
    hide Left;
    hide OutcomeOf;
    hide RoundOf;
    hide Client.Settle;
    hide Client.Decide;
    var m := x.book;
    assert Sized(m);
    if e.Net? && Heard(x.system, e.event).Some? {
      var report, own := Heard(x.system, e.event).value, HttpSteps.Own(x.system, e.event, e.event.conn);
      HeardFacts(x.system, e.event);
      FailureKeepsResponse(x.system, e.event);
      OpenIffVetoed(m, m.owner[report.id]);
      RoundIs(own, report, e.verdicts);
      DeliverRound(m, report, RoundOf(own, report, e.verdicts), k);
    }
    hide Kept;
    assert RoundsFor(m, k) + [] == RoundsFor(m, k);
  }

  /**
   * On every run the rounds of a call are those that the reports on its attempts tell, in order,
   * as long as handlers have vetoed all before: each with the content its connection left, and
   * with the status of that content, or with the reason of the failure.
   */
  lemma {:induction false} RoundsTold(x: State, events: seq<HttpExchange.Event>, k: nat)
    requires Inv(x) && AllPossible(x, events)
    ensures RoundsFor(Run(x, events).book, k) == RoundsFor(x.book, k) + Told(x, events, k)
    decreases |events|
  {
    hide Reports;
    hide Kept;
    hide HttpSystem.Linked;
    hide Next;
    hide ToldBy;
    hide RoundsFor;
    if events == [] {
      assert RoundsFor(x.book, k) + [] == RoundsFor(x.book, k);
    } else {
      InvKept(x, events[0]);
      RoundStep(x, events[0], k);
      RoundsTold(Next(x, events[0]), events[1..], k);
    }
  }

  /** The status that a completed round states is that of its response. */
  predicate StatusHeld(rounds: seq<Client.Round>) {
    forall i | 0 <= i < |rounds| :: rounds[i].outcome.Done? ==> rounds[i].outcome.status == rounds[i].content.status
  }

  lemma {:induction false} ToldStatus(x: State, events: seq<HttpExchange.Event>, k: nat)
    requires Inv(x) && AllPossible(x, events)
    ensures StatusHeld(Told(x, events, k))
    decreases |events|
  {
    hide Reports;
    hide Kept;
    hide HttpSystem.Linked;
    hide Next;
    if events != [] {
      InvKept(x, events[0]);
      OneStatus(x, events[0], k);
      ToldStatus(Next(x, events[0]), events[1..], k);
      hide ToldBy;
    }
  }

  lemma OneStatus(x: State, e: HttpExchange.Event, k: nat)
    requires Inv(x) && Possible(x, e)
    ensures StatusHeld(ToldBy(x, e, k))
  {
    hide Inv;
    hide Heard;
    hide HttpSteps.Own;
  }

  /** The book of a completed call, read off its rounds. */
  lemma CompletedRound(m: Book, k: nat) returns (i: nat)
    requires k < |m.calls| == |m.rounds| && m.calls[k] == Client.SettleAll(Client.Begin(BLANK), m.rounds[k])
    requires StatusHeld(m.rounds[k]) && m.calls[k].completion.Some? && m.calls[k].completion.value.Done?
    ensures i < |m.rounds[k]| && m.calls[k].completion == Some(Done(m.rounds[k][i].content.status))
    ensures forall j | 0 <= j < i :: Client.Decide(m.rounds[k][j].verdicts) == Client.Veto
    ensures Client.Decide(m.rounds[k][i].verdicts) == Client.Accept
  {
    Client.FirstDecidedWins(Client.Begin(BLANK), m.rounds[k]);
    hide Client.SettleAll;
    i := Client.FirstDecided(m.rounds[k]);
  }

  /**
   * On every run: a call begun in it that is completed has the status of the response that its
   * first round without a veto was completed with.
   */
  lemma CompletedWithStatus(x: State, events: seq<HttpExchange.Event>, k: nat) returns (i: nat)
    requires Inv(x) && AllPossible(x, events) && k >= |x.book.rounds|
    requires var m := Run(x, events).book;
             k < |m.calls| && m.calls[k].completion.Some? && m.calls[k].completion.value.Done?
    ensures var m := Run(x, events).book;
            && k < |m.rounds| && i < |m.rounds[k]|
            && m.calls[k].completion == Some(Done(m.rounds[k][i].content.status))
            && (forall j | 0 <= j < i :: Client.Decide(m.rounds[k][j].verdicts) == Client.Veto)
            && Client.Decide(m.rounds[k][i].verdicts) == Client.Accept
  {
    hide Reports;
    hide Kept;
    hide HttpSystem.Linked;
    hide Run;
    hide AllPossible;
    hide Told;
    hide StatusHeld;
    hide Client.SettleAll;
    hide Client.Decide;
    var m := Run(x, events).book;
    OwnConnectionIffNoLateReport(x, events);
    RoundsTold(x, events, k);
    ToldStatus(x, events, k);
    assert m.rounds[k] == [] + Told(x, events, k) == Told(x, events, k);
    i := CompletedRound(m, k);
  }
}
