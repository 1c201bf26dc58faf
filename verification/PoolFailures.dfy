/** Concrete runs of a new pool on which a property of `release` or `remove` fails. */
module PoolFailures {
  import opened Pool
  import opened PoolRuns

  /** The step may be made, and this is where it leads. */
  ghost predicate Leads(w: World, s: Step, next: World) {
    Inv(w) && Sane(w) && Enabled(w, s) && Inv(next) && Sane(next) && Do(w, s) == next
  }

  /** One step of a run, when the rest is known. */
  lemma At(w: World, next: World, steps: seq<Step>, i: nat)
    requires i < |steps| && Leads(w, steps[i], next) && Possible(next, steps[i + 1..])
    ensures Inv(w) && Sane(w) && Possible(w, steps[i..])
    ensures Run(w, steps[i..]) == Run(next, steps[i + 1..])
  {
    hide Inv;
    hide Sane;
    hide Do;
    assert steps[i..][1..] == steps[i + 1..];
  }

  /** The only connection allowed is closed while it works for a request and another one waits. */
  const RELEASED_CLOSED: seq<Step> := [Next, Connected(0), Next, Close(0), Answered(0)]

  /** The pool after the first request, when its connection is made, and with a second request. */
  function Requested(): World {
    Start(true, 1).(
      pool := Pool([Slot(0, false)], [], [], true, 1), opening := map[0 := 0], conns := 1, place := [Opening(0)])
  }

  function AtWork(): World {
    Start(true, 1).(pool := Pool([Slot(0, true)], [], [], true, 1), busy := map[0 := 0], conns := 1,
                    place := [Written(0)], writes := [(0, 0)])
  }

  function Queueing(): World {
    AtWork().(pool := Pool([Slot(0, true)], [], [1], true, 1), place := [Written(0), Waiting], queued := [1])
  }

  function Replaced(): World {
    Queueing().(pool := Pool([Slot(1, false)], [], [1], true, 1), closed := {0}, conns := 2)
  }

  lemma RequestedIs()
    ensures Leads(Start(true, 1), Next, Requested())
  {
    hide Inv;
    hide Sane;
    StartInv(true, 1);
    InvKept(Start(true, 1), Next);
    assert [] + [Slot(0, false)] == [Slot(0, false)] && [] + [Opening(0)] == [Opening(0)];
  }

  lemma AtWorkIs()
    requires Leads(Start(true, 1), Next, Requested())
    ensures Leads(Requested(), Connected(0), AtWork())
  {
    hide Inv;
    hide Sane;
    assert Slot(0, false) in Requested().pool.slots;
    InvKept(Requested(), Connected(0));
    var none: map<nat, nat> := map[];
    assert MarkDone([Slot(0, false)], 0) == [Slot(0, true)];
    assert map[0 := 0] - {0} == none && [Opening(0)][0 := Written(0)] == [Written(0)];
    assert [] + [(0, 0)] == [(0, 0)];
    var w := Requested().(pool := AtWork().pool, opening := none);
    assert Do(Requested(), Connected(0)) == WriteTo(w, 0, 0);
  }

  lemma QueueingIs()
    requires Leads(Requested(), Connected(0), AtWork())
    ensures Leads(AtWork(), Next, Queueing())
  {
    hide Inv;
    hide Sane;
    InvKept(AtWork(), Next);
    assert [Written(0)] + [Waiting] == [Written(0), Waiting] && [] + [1] == [1];
  }

  lemma ReplacedIs()
    requires Leads(AtWork(), Next, Queueing())
    ensures Leads(Queueing(), Close(0), Replaced())
  {
    hide Inv;
    hide Sane;
    InvKept(Queueing(), Close(0));
    var s, none: set<nat> := Slot(0, true), {};
    assert [s][1..] == [] && Kept([s], 0) == [] && MatchCount([s], 0) == 1;
    assert [] + [Slot(1, false)] == [Slot(1, false)] && none + {0} == {0} && none - {0} == none;
  }

  lemma ReleasedIs()
    requires Leads(Queueing(), Close(0), Replaced())
    ensures Sane(Replaced()) && Enabled(Replaced(), Answered(0))
    ensures Leads(Replaced(), Answered(0), Do(Replaced(), Answered(0))) && Do(Replaced(), Answered(0)).stale
  {
    hide Inv;
    hide Sane;
    hide Do;
    InvKept(Replaced(), Answered(0));
    StaleStep(Replaced(), Answered(0));
  }

  /** The waiting request is written to the closed connection. */
  lemma ReleasedClosed()
    ensures Inv(Start(true, 1)) && Sane(Start(true, 1)) && Possible(Start(true, 1), RELEASED_CLOSED)
    ensures Run(Start(true, 1), RELEASED_CLOSED).stale
  {
    hide Leads;
    hide Inv;
    hide Sane;
    hide Do;
    hide Start;
    hide Requested;
    hide AtWork;
    hide Queueing;
    hide Replaced;
    var s := RELEASED_CLOSED;
    RequestedIs();
    AtWorkIs();
    QueueingIs();
    ReplacedIs();
    ReleasedIs();
    assert s[5..] == [] && s[0..] == s;
    At(Replaced(), Do(Replaced(), Answered(0)), s, 4);
    At(Queueing(), Replaced(), s, 3);
    At(AtWork(), Queueing(), s, 2);
    At(Requested(), AtWork(), s, 1);
    At(Start(true, 1), Requested(), s, 0);
  }

  /** The connection of the first request does not come up. */
  const NEVER_MADE: seq<Step> := [Next, Close(0)]

  /** There is no future to erase. */
  lemma NeverMade()
    ensures Inv(Start(true, 1)) && Sane(Start(true, 1)) && Possible(Start(true, 1), NEVER_MADE)
    ensures Run(Start(true, 1), NEVER_MADE).badErase
  {
    hide Leads;
    hide Inv;
    hide Sane;
    hide Do;
    hide Start;
    hide Requested;
    var s, w := NEVER_MADE, Requested();
    RequestedIs();
    FailedIs();
    assert s[2..] == [] && s[0..] == s;
    At(w, Do(w, Close(0)), s, 1);
    At(Start(true, 1), w, s, 0);
  }

  lemma FailedIs()
    requires Leads(Start(true, 1), Next, Requested())
    ensures Sane(Requested()) && Enabled(Requested(), Close(0))
    ensures Leads(Requested(), Close(0), Do(Requested(), Close(0))) && Do(Requested(), Close(0)).badErase
  {
    hide Inv;
    hide Sane;
    hide Do;
    assert Slot(0, false) in Requested().pool.slots;
    InvKept(Requested(), Close(0));
    BadEraseStep(Requested(), Close(0));
  }
}
