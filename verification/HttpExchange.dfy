/**
 * The client's calls, the pool and the connections together: a report of a connection settles
 * the current completion of a response, and a vetoed one asks the pool for the next attempt.
 */
module HttpExchange {
  import opened Prelude
  import opened Response
  import opened HttpReader
  import opened HttpOutcome
  import HttpSteps
  import PoolRuns
  import HttpSystem
  import Client

  /**
   * `owner[a]` is the call that attempt `a` is for, and `latest[k]` the last attempt of call
   * `k`. The rest is history: the rounds of each call, the attempts that a connection has
   * reported on, for each settled attempt the one whose connection settled it, and the calls
   * that a late report found open: one on an attempt that was reported on before.
   */
  datatype Book = Book(
    owner: seq<nat>,
    latest: seq<nat>,
    calls: seq<Client.Exchange>,
    rounds: seq<seq<Client.Round>>,
    reported: set<nat>,
    settledBy: map<nat, nat>,
    late: set<nat>)

  datatype State = State(system: HttpSystem.System, book: Book)

  function Begin(limit: bool, max: nat): State {
    State(HttpSystem.Begin(limit, max), Book([], [], [], [], {}, map[], {}))
  }

  /** A call of the client, or anything in the network, with the handlers' answers to a report. */
  datatype Event = NewCall | Net(event: HttpSystem.Event, verdicts: seq<Client.Verdict>)

  // ---- What a report does. ----

  /** The report that an event makes, if it makes one. */
  function Heard(s: HttpSystem.System, e: HttpSystem.Event): (report: Option<Call>)
    requires HttpSystem.Linked(s) && HttpSystem.Possible(s, e)
    ensures report.Some? ==> IsReport(report.value)
  {
    if e.On? then
      HttpSystem.ReaderOf(s, e.conn);
      AfterOutcome(s.readers[e.conn], e.event);
      Report(NewCalls(s.readers[e.conn], HttpSteps.Own(s, e, e.conn)))
    else None
  }

  /** What the connection has left in the response. */
  function Left(r: Reader, report: Call): Content
    requires IsReport(report)
  {
    match report
    case Settle(_, content) => content
    case LateSettle(_, content) => content
    case _ => if r.res.Some? then r.res.value.content else BLANK
  }

  function OutcomeOf(report: Call): Outcome
    requires IsReport(report)
  {
    if IsDone(report) then Done(report.content.status) else Failed(report.why)
  }

  /** The book with a new call, before its first attempt. */
  function WithCall(m: Book): Book {
    m.(calls := m.calls + [Client.Begin(BLANK)], rounds := m.rounds + [[]])
  }

  /** A further attempt of call `k`, which may be its first one. */
  function Asked(m: Book, k: nat): Book
    requires k <= |m.latest|
  {
    var a := |m.owner|;
    m.(owner := m.owner + [k], latest := if k < |m.latest| then m.latest[k := a] else m.latest + [a])
  }

  function Ask(s: HttpSystem.System, m: Book, k: nat): State
    requires HttpSystem.Linked(s) && HttpSystem.Sound(s) && k <= |m.latest|
  {
    State(HttpSystem.Next(s, HttpSystem.Request), Asked(m, k))
  }

  /** The report reaches the response of its call, and settles the current completion if it is open. */
  function Deliver(m: Book, report: Call, round: Client.Round): Book
    requires Sized(m) && IsReport(report) && report.id < |m.owner|
  {
    var b, k := report.id, m.owner[report.id];
    var m1 := m.(reported := m.reported + {b});
    if m.calls[k].current.Some? then m1
    else
      m1.(calls := m.calls[k := Client.Settle(m.calls[k], round)],
          rounds := m.rounds[k := m.rounds[k] + [round]],
          settledBy := m.settledBy[m.latest[k] := b],
          late := if IsLate(report) then m.late + {k} else m.late)
  }

  /** The report makes the handlers ask for another attempt of its call. */
  predicate Retries(m: Book, report: Call, round: Client.Round)
    requires Sized(m) && IsReport(report) && report.id < |m.owner|
  {
    m.calls[m.owner[report.id]].current.None? && Client.Decide(round.verdicts) == Client.Veto
  }

  predicate Possible(x: State, e: Event) {
    match e
    case NewCall => HttpSystem.Sound(x.system)
    case Net(event, _) => !event.Request? && HttpSystem.Possible(x.system, event)
  }

  function Next(x: State, e: Event): State
    requires Shape(x) && Possible(x, e)
  {
    var m := x.book;
    match e
    case NewCall =>
      Ask(x.system, WithCall(m), |m.calls|)
    case Net(event, verdicts) =>
      HttpSteps.StepReaders(x.system, event);
      var s := HttpSystem.Next(x.system, event);
      match Heard(x.system, event)
      case None => State(s, m)
      case Some(report) =>
        HeardFacts(x.system, event);
        var left := Left(HttpSteps.Own(x.system, event, event.conn), report);
        var round := Client.Round(left, OutcomeOf(report), verdicts);
        var next := Deliver(m, report, round);
        if Retries(m, report, round) then Ask(s, next, m.owner[report.id]) else State(s, next)
  }

  /** A report is on the attempt that its connection works on, and nothing undefined has happened. */
  lemma HeardFacts(s: HttpSystem.System, e: HttpSystem.Event)
    requires HttpSystem.Linked(s) && HttpSystem.Possible(s, e) && Heard(s, e).Some?
    ensures var report, own := Heard(s, e).value, HttpSteps.Own(s, e, e.conn);
            && e.On? && e.conn < |s.readers| && HttpSystem.Sound(HttpSystem.Next(s, e))
            && var r := s.readers[e.conn];
            && r.res.Some? && report.id == r.res.value.id && (IsLate(report) <==> r.res.value.ready)
            && report.id < |s.world.place| && s.world.place[report.id] == PoolRuns.Written(e.conn)
            && (own.res.Some? ==> own.res.value.id == report.id && own.res.value.ready)
  {
    hide HttpSystem.Linked;
    hide After;
    HttpSystem.ReaderOf(s, e.conn);
    AfterOutcome(s.readers[e.conn], e.event);
    HttpSteps.ReaderPlaced(s, e.conn);
    HttpSystem.UnsoundIff(s, e);
  }

  // ---- The invariant. ----

  /** Each attempt is for one call, and each call has a latest attempt. */
  predicate Sized(m: Book) {
    && |m.latest| == |m.calls| == |m.rounds|
    && (forall a: nat | a < |m.owner| :: m.owner[a] < |m.calls|)
    && (forall k: nat | k < |m.latest| :: m.latest[k] < |m.owner| && m.owner[m.latest[k]] == k)
  }

  ghost predicate Shape(x: State) {
    HttpSystem.Linked(x.system) && Sized(x.book) && |x.book.owner| == |x.system.world.place|
  }

  /** A reader's response is ready exactly if the attempt was reported on. */
  ghost predicate Reports(s: HttpSystem.System, reported: set<nat>) {
    && (forall b <- reported :: b < |s.world.place| && s.world.place[b].Written?)
    && (forall c: nat | c < |s.readers| && s.readers[c].res.Some? ::
          s.readers[c].res.value.ready <==> s.readers[c].res.value.id in reported)
  }

  /** All attempts of a call but the latest are settled, and the latest is if the call is. */
  ghost predicate Attempts(m: Book, asking: Option<nat>)
    requires Sized(m)
  {
    && (forall a: nat | a < |m.owner| && a != m.latest[m.owner[a]] :: a in m.settledBy)
    && (forall k: nat | k < |m.calls| ::
          m.latest[k] in m.settledBy <==> m.calls[k].current.Some? || asking == Some(k))
    && (asking.Some? ==> asking.value < |m.calls| && m.calls[asking.value].current.None?)
  }

  /** An attempt is settled by one that was reported on and is for the same call. */
  ghost predicate SameCall(m: Book) {
    forall a <- m.settledBy ::
      && a < |m.owner| && m.settledBy[a] in m.reported
      && m.settledBy[a] < |m.owner| && m.owner[m.settledBy[a]] == m.owner[a]
  }

  ghost predicate Misattributed(m: Book, k: nat) {
    exists a :: a in m.settledBy && a < |m.owner| && m.owner[a] == k && m.settledBy[a] != a
  }

  /** Without a late report a call's attempts are settled as they are reported on, each by its own. */
  ghost predicate Attribution(m: Book) {
    && (forall a: nat | a < |m.owner| && m.owner[a] !in m.late ::
          (a in m.reported <==> a in m.settledBy) && (a in m.settledBy ==> m.settledBy[a] == a))
    && (forall k <- m.late :: Misattributed(m, k))
  }

  function Count(owner: seq<nat>, k: nat): nat {
    if owner == [] then 0 else Count(owner[..|owner| - 1], k) + if owner[|owner| - 1] == k then 1 else 0
  }

  /** Each call is what its rounds made of it, and asked for one connection per attempt. */
  ghost predicate History(m: Book, asking: Option<nat>)
    requires Sized(m)
  {
    forall k: nat | k < |m.calls| ::
      && m.calls[k] == Client.SettleAll(Client.Begin(BLANK), m.rounds[k])
      && m.calls[k].requests == Count(m.owner, k) + if asking == Some(k) then 1 else 0
  }

  /** The book agrees with itself, but for the attempt that call `asking` is about to get. */
  ghost predicate Kept(m: Book, asking: Option<nat>) {
    Sized(m) && Attempts(m, asking) && SameCall(m) && Attribution(m) && History(m, asking)
  }

  ghost predicate Inv(x: State) {
    Shape(x) && Reports(x.system, x.book.reported) && Kept(x.book, None)
  }

  lemma BeginInv(limit: bool, max: nat)
    ensures Inv(Begin(limit, max)) && HttpSystem.Sound(Begin(limit, max).system)
  {
    HttpSystem.BeginLinked(limit, max);
  }

  // ---- Each step keeps it. ----

  lemma ReportsKept(s: HttpSystem.System, e: HttpSystem.Event, reported: set<nat>)
    requires HttpSystem.Linked(s) && HttpSystem.Possible(s, e) && Reports(s, reported)
    ensures Reports(HttpSystem.Next(s, e),
                    if Heard(s, e).Some? then reported + {Heard(s, e).value.id} else reported)
  {
    hide HttpSystem.Linked;
    hide HttpSystem.Next;
    hide HttpSystem.Possible;
    hide HttpSteps.Own;
    hide HttpSteps.Advances;
    HttpSteps.StepReaders(s, e);
    var next := HttpSystem.Next(s, e);
    var now := if Heard(s, e).Some? then reported + {Heard(s, e).value.id} else reported;
    if Heard(s, e).Some? {
      HeardFacts(s, e);
    }
    forall b <- now ensures b < |next.world.place| && next.world.place[b].Written? {
      HttpSteps.WrittenStays(s.world, next.world, b);
    }
    forall c: nat | c < |next.readers| && next.readers[c].res.Some?
      ensures next.readers[c].res.value.ready <==> next.readers[c].res.value.id in now
    {
      if next.readers[c] == HttpSteps.Own(s, e, c) {
        OwnReports(s, e, reported, c);
      }
    }
  }

  lemma OwnReports(s: HttpSystem.System, e: HttpSystem.Event, reported: set<nat>, c: nat)
    requires HttpSystem.Linked(s) && HttpSystem.Possible(s, e) && Reports(s, reported)
    requires HttpSteps.Own(s, e, c).res.Some?
    ensures var a := HttpSteps.Own(s, e, c).res.value;
            a.ready <==> a.id in if Heard(s, e).Some? then reported + {Heard(s, e).value.id} else reported
  {
    hide HttpSystem.Linked;
    hide After;
    if e.On? && e.conn == c {
      HttpSystem.ReaderOf(s, c);
      AfterOutcome(s.readers[c], e.event);
    } else if c < |s.readers| {
      HttpSteps.ReaderPlaced(s, c);
    }
    if Heard(s, e).Some? {
      HeardFacts(s, e);
    }
  }

  lemma {:induction false} SettleAllAppend(x: Client.Exchange, rounds: seq<Client.Round>, r: Client.Round)
    ensures Client.SettleAll(x, rounds + [r]) == Client.Settle(Client.SettleAll(x, rounds), r)
    decreases |rounds|
  {
    hide Client.Settle;
    if rounds == [] {
      assert [] + [r] == [r] && [r][1..] == [];
      assert Client.SettleAll(Client.Settle(x, r), []) == Client.Settle(x, r);
    } else {
      assert (rounds + [r])[1..] == rounds[1..] + [r];
      SettleAllAppend(Client.Settle(x, rounds[0]), rounds[1..], r);
    }
  }

  lemma DeliverKeeps(m: Book, report: Call, round: Client.Round)
    requires Kept(m, None) && IsReport(report) && report.id < |m.owner|
    requires IsLate(report) <==> report.id in m.reported
    ensures Kept(Deliver(m, report, round), if Retries(m, report, round) then Some(m.owner[report.id]) else None)
  {
    if m.calls[m.owner[report.id]].current.None? {
      DeliverAttempts(m, report, round);
      DeliverAttribution(m, report, round);
      DeliverHistory(m, report, round);
    } else {
      DeliverNothing(m, report, round);
    }
  }

  lemma DeliverNothing(m: Book, report: Call, round: Client.Round)
    requires Kept(m, None) && IsReport(report) && report.id < |m.owner|
    requires m.calls[m.owner[report.id]].current.Some?
    ensures Kept(Deliver(m, report, round), None)
  {
    assert report.id in m.settledBy;
    hide Attribution;
    hide Attempts;
    hide SameCall;
    hide History;
    ReportedAgain(m, report.id);
    ReportedApart(m, report.id);
  }

  lemma ReportedApart(m: Book, b: nat)
    requires Sized(m) && Attempts(m, None) && SameCall(m) && History(m, None)
    ensures var next := m.(reported := m.reported + {b});
            Sized(next) && Attempts(next, None) && SameCall(next) && History(next, None)
  {
    hide Client.SettleAll;
    hide Count;
  }

  /** Noting a report for an attempt that is settled already. */
  lemma ReportedAgain(m: Book, b: nat)
    requires Attribution(m) && b in m.settledBy && b < |m.owner|
    ensures Attribution(m.(reported := m.reported + {b}))
  {
    var next := m.(reported := m.reported + {b});
    forall j <- next.late ensures Misattributed(next, j) {
      assert Misattributed(m, j);
    }
  }

  lemma DeliverAttempts(m: Book, report: Call, round: Client.Round)
    requires Kept(m, None) && IsReport(report) && report.id < |m.owner|
    requires m.calls[m.owner[report.id]].current.None?
    ensures var next := Deliver(m, report, round);
            && Sized(next) && SameCall(next)
            && Attempts(next, if Retries(m, report, round) then Some(m.owner[report.id]) else None)
  {
    hide Attempts;
    hide History;
    hide Attribution;
    hide Client.Settle;
    hide Client.Decide;
    var k := m.owner[report.id];
    SettleOpens(m.calls[k], round);
    DeliverSized(m, report, round);
    DeliverSameCall(m, report, round);
    hide Sized;
    hide SameCall;
    SettledAttempts(m, Deliver(m, report, round), k, report.id, Client.Settle(m.calls[k], round));
  }

  /** One call is settled by attempt `b`, and perhaps open again. */
  lemma SettledAttempts(m: Book, next: Book, k: nat, b: nat, x: Client.Exchange)
    requires Sized(m) && Attempts(m, None) && Sized(next) && k < |m.calls| && m.calls[k].current.None?
    requires next.owner == m.owner && next.latest == m.latest && next.calls == m.calls[k := x]
    requires next.settledBy == m.settledBy[m.latest[k] := b]
    ensures Attempts(next, if x.current.None? then Some(k) else None)
  {
    forall j: nat | j < |m.calls| && j != k ensures m.latest[j] != m.latest[k] {
      assert m.owner[m.latest[j]] == j;
    }
    hide Sized;
  }

  lemma DeliverSized(m: Book, report: Call, round: Client.Round)
    requires Sized(m) && IsReport(report) && report.id < |m.owner|
    ensures Sized(Deliver(m, report, round))
  {
    hide Client.Settle;
  }

  lemma DeliverSameCall(m: Book, report: Call, round: Client.Round)
    requires Sized(m) && SameCall(m) && IsReport(report) && report.id < |m.owner|
    ensures SameCall(Deliver(m, report, round))
  {
    hide Client.Settle;
  }

  lemma SettleOpens(x: Client.Exchange, round: Client.Round)
    requires x.current.None?
    ensures Client.Settle(x, round).current.None? <==> Client.Decide(round.verdicts) == Client.Veto
  {
    hide Client.Decide;
    hide Cleared;
  }

  lemma DeliverHistory(m: Book, report: Call, round: Client.Round)
    requires Kept(m, None) && IsReport(report) && report.id < |m.owner|
    requires m.calls[m.owner[report.id]].current.None? && Sized(Deliver(m, report, round))
    ensures History(Deliver(m, report, round), if Retries(m, report, round) then Some(m.owner[report.id]) else None)
  {
    hide Attempts;
    hide SameCall;
    hide Attribution;
    hide Client.SettleAll;
    hide Client.Decide;
    hide Count;
    SettleAllAppend(Client.Begin(BLANK), m.rounds[m.owner[report.id]], round);
  }

  lemma DeliverAttribution(m: Book, report: Call, round: Client.Round)
    requires Kept(m, None) && IsReport(report) && report.id < |m.owner|
    requires m.calls[m.owner[report.id]].current.None?
    requires IsLate(report) <==> report.id in m.reported
    ensures Attribution(Deliver(m, report, round))
  {
    hide History;
    hide SameCall;
    hide Client.Settle;
    var b, k, next := report.id, m.owner[report.id], Deliver(m, report, round);
    var a := m.latest[k];
    assert a !in m.settledBy;
    assert k !in m.late && !IsLate(report) ==> b == a;
    forall j <- next.late ensures Misattributed(next, j) {
      if j in m.late {
        var d :| d in m.settledBy && d < |m.owner| && m.owner[d] == j && m.settledBy[d] != d;
        assert d in next.settledBy && next.settledBy[d] == m.settledBy[d];
      } else {
        assert a in next.settledBy && next.settledBy[a] == b;
      }
    }
  }

  lemma CountAppend(owner: seq<nat>, j: nat, k: nat)
    ensures Count(owner + [j], k) == Count(owner, k) + if j == k then 1 else 0
  {
    assert (owner + [j])[..|owner|] == owner;
  }

  /** The next attempt of a call whose last one is settled. */
  lemma AskedKeeps(m: Book, k: nat)
    requires Kept(m, Some(k)) && forall b <- m.reported :: b < |m.owner|
    ensures Kept(Asked(m, k), None)
  {
    AskedAttempts(m, k);
    AskedAttribution(m, k);
    AskedHistory(m, k);
    hide Attempts;
    hide SameCall;
    hide Attribution;
    hide History;
    hide Asked;
  }

  lemma AskedHistory(m: Book, k: nat)
    requires Sized(m) && History(m, Some(k)) && k < |m.calls| && Sized(Asked(m, k))
    ensures History(Asked(m, k), None)
  {
    hide Client.SettleAll;
    hide Count;
    AskedCounts(m, k);
    hide Sized;
  }

  lemma AskedSized(m: Book, k: nat)
    requires Sized(m) && k < |m.calls|
    ensures Sized(Asked(m, k))
  {
    var next := Asked(m, k);
    forall a: nat | a < |next.owner| ensures next.owner[a] < |next.calls| {
      assert a < |m.owner| ==> next.owner[a] == m.owner[a];
    }
    forall j: nat | j < |next.latest| ensures next.latest[j] < |next.owner| && next.owner[next.latest[j]] == j {
      assert j != k ==> next.latest[j] == m.latest[j] && next.owner[m.latest[j]] == m.owner[m.latest[j]];
    }
  }

  lemma AskedAttempts(m: Book, k: nat)
    requires Kept(m, Some(k))
    ensures Sized(Asked(m, k)) && Attempts(Asked(m, k), None) && SameCall(Asked(m, k))
  {
    hide History;
    hide Attribution;
    AskedSized(m, k);
    var next := Asked(m, k);
    assert |m.owner| !in m.settledBy;
    forall a: nat | a < |next.owner| && a != next.latest[next.owner[a]] ensures a in m.settledBy {
      assert next.owner[a] == m.owner[a];
    }
    forall j: nat | j < |m.calls| ensures next.latest[j] in m.settledBy <==> m.calls[j].current.Some? {
      assert j != k ==> next.latest[j] == m.latest[j];
    }
    forall a <- m.settledBy ensures next.owner[m.settledBy[a]] == next.owner[a] {
      assert next.owner[a] == m.owner[a] && next.owner[m.settledBy[a]] == m.owner[m.settledBy[a]];
    }
  }

  lemma AskedAttribution(m: Book, k: nat)
    requires SameCall(m) && Attribution(m) && k <= |m.latest| && forall b <- m.reported :: b < |m.owner|
    ensures Attribution(Asked(m, k))
  {
    var next := Asked(m, k);
    assert |m.owner| !in m.settledBy && |m.owner| !in m.reported;
    forall j <- m.late ensures Misattributed(next, j) {
      var d :| d in m.settledBy && d < |m.owner| && m.owner[d] == j && m.settledBy[d] != d;
      assert next.owner[d] == j;
    }
  }

  lemma AskedCounts(m: Book, k: nat)
    requires k <= |m.latest|
    ensures forall j: nat :: Count(Asked(m, k).owner, j) == Count(m.owner, j) + if k == j then 1 else 0
  {
    forall j: nat ensures Count(Asked(m, k).owner, j) == Count(m.owner, j) + if k == j then 1 else 0 {
      CountAppend(m.owner, k, j);
    }
  }

  lemma AskSystem(s: HttpSystem.System, reported: set<nat>)
    requires HttpSystem.Linked(s) && HttpSystem.Sound(s) && Reports(s, reported)
    ensures var next := HttpSystem.Next(s, HttpSystem.Request);
            && HttpSystem.Linked(next) && |next.world.place| == |s.world.place| + 1 && Reports(next, reported)
  {
    hide HttpSystem.Linked;
    hide HttpSystem.Next;
    hide HttpSystem.Sound;
    hide Reports;
    hide HttpSteps.Own;
    hide HttpSteps.Attached;
    HttpSteps.StepReaders(s, HttpSystem.Request);
    ReportsKept(s, HttpSystem.Request, reported);
  }

  lemma NewCallKeeps(x: State)
    requires Inv(x) && HttpSystem.Sound(x.system)
    ensures Inv(Next(x, NewCall))
  {
    hide HttpSystem.Linked;
    hide HttpSystem.Next;
    AskSystem(x.system, x.book.reported);
    NewCallBook(x.book);
  }

  lemma NewCallBook(m: Book)
    requires Kept(m, None) && forall b <- m.reported :: b < |m.owner|
    ensures Kept(Asked(WithCall(m), |m.calls|), None)
  {
    hide Count;
    NewCallAttempts(m);
    NewCallHistory(m);
    forall j <- m.late ensures Misattributed(WithCall(m), j) {
      assert Misattributed(m, j);
    }
    AskedAttribution(WithCall(m), |m.calls|);
  }

  lemma NewCallSized(m: Book)
    requires Sized(m)
    ensures var next, k := Asked(WithCall(m), |m.calls|), |m.calls|;
            && Sized(next)
            && (forall a: nat | a < |m.owner| ::
                  next.owner[a] == m.owner[a] && next.latest[m.owner[a]] == m.latest[m.owner[a]])
            && (forall j: nat | j < k :: next.latest[j] == m.latest[j])
            && next.owner[|m.owner|] == k && next.latest[k] == |m.owner|
  {
  }

  lemma NewCallAttempts(m: Book)
    requires Kept(m, None)
    ensures var next := Asked(WithCall(m), |m.calls|); Sized(next) && Attempts(next, None) && SameCall(next)
  {
    hide History;
    hide Attribution;
    assert |m.latest| == |m.calls|;
    hide Sized;
    var next := Asked(WithCall(m), |m.calls|);
    NewCallSized(m);
    assert |m.owner| !in m.settledBy;
    assert |next.owner| == |m.owner| + 1 && |next.calls| == |m.calls| + 1;
  }

  lemma NewCallHistory(m: Book)
    requires Kept(m, None) && Sized(Asked(WithCall(m), |m.calls|))
    ensures History(Asked(WithCall(m), |m.calls|), None)
  {
    hide Count;
    hide Attempts;
    hide SameCall;
    hide Attribution;
    assert |m.calls| !in m.owner;
    NoneOwned(m.owner, |m.calls|);
    AskedCounts(WithCall(m), |m.calls|);
  }

  lemma {:induction false} NoneOwned(owner: seq<nat>, k: nat)
    requires k !in owner
    ensures Count(owner, k) == 0
    decreases |owner|
  {
    if owner != [] {
      NoneOwned(owner[..|owner| - 1], k);
    }
  }

  lemma InvKept(x: State, e: Event)
    requires Inv(x) && Possible(x, e)
    ensures Inv(Next(x, e))
  {
    match e {
      case NewCall => NewCallKeeps(x);
      case Net(event, verdicts) => NetKeeps(x, event, verdicts);
    }
  }

  lemma NetKeeps(x: State, event: HttpSystem.Event, verdicts: seq<Client.Verdict>)
    requires Inv(x) && Possible(x, Net(event, verdicts))
    ensures Inv(Next(x, Net(event, verdicts)))
  {
    hide HttpSystem.Linked;
    hide HttpSystem.Next;
    hide HttpSystem.Possible;
    hide Heard;
    hide HttpSteps.Own;
    hide Attempts;
    hide SameCall;
    hide Attribution;
    hide History;
    HttpSteps.StepReaders(x.system, event);
    ReportsKept(x.system, event, x.book.reported);
    if Heard(x.system, event).Some? {
      var s, m, report := HttpSystem.Next(x.system, event), x.book, Heard(x.system, event).value;
      HeardFacts(x.system, event);
      var round := Client.Round(Left(HttpSteps.Own(x.system, event, event.conn), report), OutcomeOf(report), verdicts);
      DeliverKeeps(m, report, round);
      if Retries(m, report, round) {
        AskSystem(s, m.reported + {report.id});
        AskedKeeps(Deliver(m, report, round), m.owner[report.id]);
      }
    }
  }

  // ---- Every run. ----

  ghost predicate AllPossible(x: State, events: seq<Event>)
    requires Inv(x)
    decreases |events|
  {
    events == [] ||
    (Possible(x, events[0]) && (InvKept(x, events[0]); AllPossible(Next(x, events[0]), events[1..])))
  }

  ghost function Run(x: State, events: seq<Event>): State
    requires Inv(x) && AllPossible(x, events)
    decreases |events|
  {
    if events == [] then x else InvKept(x, events[0]); Run(Next(x, events[0]), events[1..])
  }

  lemma {:induction false} RunInv(x: State, events: seq<Event>)
    requires Inv(x) && AllPossible(x, events)
    ensures Inv(Run(x, events))
    decreases |events|
  {
    hide Reports;
    hide Kept;
    hide HttpSystem.Linked;
    hide Next;
    if events != [] {
      InvKept(x, events[0]);
      RunInv(Next(x, events[0]), events[1..]);
    }
  }

  lemma SettledStays(x: State, e: Event, k: nat)
    requires Inv(x) && Possible(x, e) && k < |x.book.calls| && x.book.calls[k].current.Some?
    ensures k < |Next(x, e).book.calls| && Next(x, e).book.calls[k] == x.book.calls[k]
  {
    hide HttpSystem.Linked;
    hide HttpSystem.Next;
    hide HttpSystem.Possible;
    hide Heard;
    hide HttpSteps.Own;
    hide Kept;
    hide Client.Settle;
    assert Sized(x.book);
    if e.Net? && Heard(x.system, e.event).Some? {
      HeardFacts(x.system, e.event);
    }
  }

  /** Once the outer completion of a call is settled, no later event changes anything about the call. */
  lemma {:induction false} CompletedOnce(x: State, events: seq<Event>, k: nat)
    requires Inv(x) && AllPossible(x, events) && k < |x.book.calls| && x.book.calls[k].completion.Some?
    ensures k < |Run(x, events).book.calls| && Run(x, events).book.calls[k] == x.book.calls[k]
    decreases |events|
  {
    hide Reports;
    hide HttpSystem.Linked;
    hide Next;
    Client.FirstDecidedWins(Client.Begin(BLANK), x.book.rounds[k]);
    hide Kept;
    if events != [] {
      InvKept(x, events[0]);
      SettledStays(x, events[0], k);
      CompletedOnce(Next(x, events[0]), events[1..], k);
    }
  }

  /**
   * On every run of calls, pool and connections, with any late reports: every attempt of a call
   * is settled by the connection it was written to if and only if no late report found the call
   * open. Each attempt that is settled is settled by a connection that worked for the same
   * call; each call is what its rounds made of it, so the first round that is not vetoed
   * settles it; and it asked the pool for one connection per attempt.
   */
  lemma OwnConnectionIffNoLateReport(x: State, events: seq<Event>)
    requires Inv(x) && AllPossible(x, events)
    ensures var m := Run(x, events).book;
            && Sized(m)
            && forall k: nat | k < |m.calls| ::
                 && (k !in m.late <==> !Misattributed(m, k))
                 && (forall a: nat | a in m.settledBy && a < |m.owner| && m.owner[a] == k ::
                       m.settledBy[a] < |m.owner| && m.owner[m.settledBy[a]] == k)
                 && m.calls[k] == Client.SettleAll(Client.Begin(BLANK), m.rounds[k])
                 && m.calls[k].requests == Count(m.owner, k)
  {
    hide HttpSystem.Linked;
    hide Run;
    hide AllPossible;
    hide Client.SettleAll;
    hide Count;
    RunInv(x, events);
  }
}
