/** One pool with full readers on its connections: the two state machines composed. */
module HttpSystem {
  import opened Prelude
  import opened HttpReader
  import opened HttpOutcome
  import opened Pool
  import opened PoolRuns
  import opened Response

  /**
   * `readers[c]` is the reader of connection `c`. `removals` holds the connections that first
   * report and then close, until the close reaches the pool. `refused` records a request
   * attached to a reader that has a current response.
   */
  datatype System = System(world: World, readers: seq<Reader>, removals: set<nat>, refused: bool)

  function Begin(limit: bool, max: nat): System {
    System(Start(limit, max), [], {}, false)
  }

  /**
   * What can happen: a request, a connection that is made or fails to come up, anything that
   * can happen to the reader of a connection, or a close that reaches the pool. A callback that
   * reports and then closes is not interrupted by another one of the same connection.
   */
  datatype Event =
    | Request
    | Made(conn: nat)
    | Refused(conn: nat)
    | On(conn: nat, event: HttpReader.Event)
    | Removal(conn: nat)

  predicate IsMade(s: System, c: nat) {
    c < |s.readers| && c < s.world.conns && Slot(c, false) !in s.world.pool.slots
  }

  /** Neither an erase without an element nor a null dereference has happened. */
  predicate Sound(s: System) {
    !s.world.badErase && forall c | 0 <= c < |s.readers| :: !s.readers[c].crashed
  }

  predicate Possible(s: System, e: Event) {
    Sound(s) &&
    match e
    case Request => true
    case Made(c) => Unmade(s.world, c)
    case Refused(c) => Unmade(s.world, c)
    case On(c, event) => IsMade(s, c) && c !in s.removals && !event.Write? && Allowed(s.readers[c], event)
    case Removal(c) => c in s.removals
  }

  /** The reader of a new connection is added. */
  function Grown(readers: seq<Reader>, before: World, after: World): seq<Reader> {
    if after.conns > before.conns then readers + [CONNECTED] else readers
  }

  predicate Wrote(readers: seq<Reader>, before: World, after: World) {
    |after.writes| > |before.writes| && after.writes[|after.writes| - 1].0 < |Grown(readers, before, after)|
  }

  /** The pool has made a step: a request that was written is attached to its reader. */
  function WithWorld(s: System, after: World): System {
    var readers := Grown(s.readers, s.world, after);
    if Wrote(s.readers, s.world, after) then
      var (c, a) := after.writes[|after.writes| - 1];
      var r := readers[c];
      System(after, readers[c := Attach(r, a, BLANK)], s.removals, s.refused || r.res.Some?)
    else System(after, readers, s.removals, s.refused)
  }

  /**
   * The pool carries out the calls that a callback made. A close that comes behind a report
   * reaches the pool later, since the report runs handlers first.
   */
  function OnReader(s: System, c: nat, after: Reader): System
    requires Linked(s) && c < |s.readers| && |s.readers[c].calls| <= |after.calls|
  {
    var calls := NewCalls(s.readers[c], after);
    var s1 := s.(readers := s.readers[c := after]);
    LinkedSane(s);
    if Release in calls && c in s.world.busy then WithWorld(s1, DoAnswered(s.world, c))
    else if Remove in calls && calls[0] == Remove then WithWorld(s1, DoClose(s.world, c))
    else
      s1.(world := if calls != [] && IsDone(calls[0]) && c in s.world.busy then DoLastAnswer(s.world, c) else s.world,
          removals := if Remove in calls then s.removals + {c} else s.removals)
  }

  function Next(s: System, e: Event): System
    requires Linked(s) && Possible(s, e)
  {
    LinkedSane(s);
    match e
    case Request => WithWorld(s, DoNext(s.world))
    case Made(c) => WithWorld(s, DoConnected(s.world, c))
    case Refused(c) => WithWorld(s, DoClose(s.world, c))
    case On(c, event) =>
      ReaderOf(s, c);
      AfterOutcome(s.readers[c], event);
      OnReader(s, c, After(s.readers[c], event))
    case Removal(c) => WithWorld(s.(removals := s.removals - {c}), DoClose(s.world, c))
  }

  // ---- How the two state machines fit together. ----

  /** What the pool knows of a connection, and what its reader says. */
  ghost predicate Fits(w: World, removals: set<nat>, c: nat, r: Reader) {
    && Consistent(r) && Accounted(r)
    && (r.closed <==> c in w.closed || c in removals)
    && (c in w.busy <==> r.res.Some?)
    && (c in w.busy ==> r.res.value.id == w.busy[c])
    && r.attached == OnConn(w.writes, c)
    && (Slot(c, false) in w.pool.slots ==> r == CONNECTED)
  }

  ghost predicate FitsAll(w: World, readers: seq<Reader>, removals: set<nat>) {
    && |readers| == w.conns
    && (forall c: nat | c < w.conns :: Fits(w, removals, c, readers[c]))
    && (forall c: nat | c >= w.conns :: OnConn(w.writes, c) == [])
    && (forall c <- removals ::
          c < w.conns && c !in w.closed && c !in w.pool.available && Slot(c, false) !in w.pool.slots)
    && (forall c <- w.closing :: c in removals)
  }

  ghost predicate Linked(s: System) {
    Inv(s.world) && FitsAll(s.world, s.readers, s.removals) && !s.refused
  }

  lemma LinkedSane(s: System)
    requires Linked(s)
    ensures Sane(s.world)
  {
    PlacedSane(s.world);
  }

  lemma ReaderOf(s: System, c: nat)
    requires Linked(s) && c < |s.readers|
    ensures Consistent(s.readers[c]) && Fits(s.world, s.removals, c, s.readers[c])
  {
    assert Fits(s.world, s.removals, c, s.readers[c]);
  }

  // ---- Each step keeps them linked. ----

  /** Writing to a connection in hand: its reader has no current response. */
  lemma WriteFits(w: World, readers: seq<Reader>, removals: set<nat>, c: nat, a: nat)
    requires FitsAll(w, readers, removals) && a < |w.place|
    requires c < w.conns && c !in w.busy && Slot(c, false) !in w.pool.slots
    ensures readers[c].res.None?
    ensures FitsAll(WriteTo(w, c, a), readers[c := Attach(readers[c], a, BLANK)], removals)
  {
    hide OnConn;
    hide Accounted;
    hide Consistent;
    var after := WriteTo(w, c, a);
    assert Fits(w, removals, c, readers[c]);
    AttachKeeps(readers[c], a, BLANK);
    forall d: nat ensures OnConn(after.writes, d) == OnConn(w.writes, d) + if c == d then [a] else [] {
      OnConnAppend(w.writes, c, a, d);
    }
    forall d: nat | d < w.conns && d != c ensures Fits(after, removals, d, readers[d]) {
      assert Fits(w, removals, d, readers[d]);
      assert OnConn(w.writes, d) + [] == OnConn(w.writes, d);
    }
    forall d: nat | d >= w.conns ensures OnConn(after.writes, d) == [] {
      assert OnConn(w.writes, d) == [];
    }
  }

  /** Nothing that a reader fits depends on the places, the histories and the queue. */
  lemma SameFits(w: World, v: World, readers: seq<Reader>, removals: set<nat>)
    requires FitsAll(w, readers, removals)
    requires v.closed == w.closed && v.busy == w.busy && v.closing == w.closing && v.conns == w.conns
    requires v.writes == w.writes && v.pool.slots == w.pool.slots
    requires forall c <- v.pool.available :: c in w.pool.available
    ensures FitsAll(v, readers, removals)
  {
    hide OnConn;
    hide Accounted;
    hide Consistent;
    forall d: nat | d < v.conns ensures Fits(v, removals, d, readers[d]) {
      assert Fits(w, removals, d, readers[d]);
    }
  }

  /** A connection that may be given a request: made, and without a current response. */
  predicate InHand(w: World, removals: set<nat>, c: nat) {
    c < w.conns && c !in w.busy && c !in removals && Slot(c, false) !in w.pool.slots
  }

  ghost predicate SystemFits(s: System) {
    FitsAll(s.world, s.readers, s.removals) && !s.refused
  }

  lemma WriteLinked(s: System, mid: World, c: nat, a: nat)
    requires FitsAll(mid, s.readers, s.removals) && !s.refused
    requires mid.writes == s.world.writes && mid.conns == s.world.conns
    requires a < |mid.place| && InHand(mid, s.removals, c)
    ensures SystemFits(WithWorld(s, WriteTo(mid, c, a)))
  {
    hide Fits;
    hide Attach;
    WriteFits(mid, s.readers, s.removals, c, a);
    assert WriteTo(mid, c, a).writes[|mid.writes|] == (c, a);
  }

  lemma GiveBackLinked(s: System, mid: World, c: nat)
    requires FitsAll(mid, s.readers, s.removals) && !s.refused && Sane(mid)
    requires mid.writes == s.world.writes && mid.conns == s.world.conns
    requires InHand(mid, s.removals, c)
    requires mid.pool.waiting == [] || mid.pool.available == []
    ensures SystemFits(WithWorld(s, GiveBack(mid, c)))
  {
    hide Fits;
    if mid.pool.waiting == [] {
      var after := GiveBack(mid, c);
      PushFits(mid, s.readers, s.removals, c);
    } else {
      var a := mid.pool.waiting[0];
      assert a in mid.pool.waiting;
      var mid1 := mid.(pool := mid.pool.(waiting := mid.pool.waiting[1..]), served := mid.served + [a]);
      SameFits(mid, mid1, s.readers, s.removals);
      WriteLinked(s, mid1, c, a);
    }
  }

  lemma PushFits(w: World, readers: seq<Reader>, removals: set<nat>, c: nat)
    requires FitsAll(w, readers, removals) && InHand(w, removals, c)
    ensures FitsAll(w.(pool := w.pool.(available := w.pool.available + [c])), readers, removals)
  {
    hide OnConn;
    hide Accounted;
    hide Consistent;
    var v := w.(pool := w.pool.(available := w.pool.available + [c]));
    forall d: nat | d < v.conns ensures Fits(v, removals, d, readers[d]) {
      assert Fits(w, removals, d, readers[d]);
    }
  }

  lemma OpenFits(w: World, readers: seq<Reader>, removals: set<nat>)
    requires FitsAll(w, readers, removals)
    requires w.conns !in w.busy && w.conns !in w.closed && forall t <- w.pool.slots :: t.conn < w.conns
    ensures FitsAll(OpenOne(w), readers + [CONNECTED], removals)
  {
    hide OnConn;
    hide Accounted;
    hide Consistent;
    var v, c := OpenOne(w), w.conns;
    ConnectedAccounted();
    assert forall t :: t in v.pool.slots <==> t in w.pool.slots || t == Slot(c, false);
    assert OnConn(w.writes, c) == [];
    forall d: nat | d < v.conns ensures Fits(v, removals, d, (readers + [CONNECTED])[d]) {
      assert d < c ==> Fits(w, removals, d, readers[d]);
    }
  }

  lemma RequestLinked(s: System)
    requires Linked(s)
    ensures SystemFits(WithWorld(s, DoNext(s.world)))
  {
    hide FitsAll;
    hide OneOwner;
    hide NoOwner;
    hide Placed;
    var w, a := s.world, |s.world.place|;
    PlacedSane(w);
    match Choose(w.pool, w.closed) {
      case Idle(c, rest) =>
        var n := DropStaleSuffix(w.pool.available, w.closed);
        SuffixNoDuplicates(w.pool.available, n);
        SuffixNoDuplicates(w.pool.available[n..], 1);
        var mid := w.(pool := w.pool.(available := rest), place := w.place + [Waiting]);
        SameFits(w, mid, s.readers, s.removals);
        IdleInHand(s, n);
        WriteLinked(s, mid, c, a);
      case Open =>
        var mid := w.(pool := w.pool.(available := []), opening := w.opening[w.conns := a],
                      place := w.place + [Opening(w.conns)]);
        var drained := w.(pool := w.pool.(available := []));
        DrainedOwned(w);
        SameFits(w, drained, s.readers, s.removals);
        OpenFits(drained, s.readers, s.removals);
        SameFits(OpenOne(drained), OpenOne(mid), s.readers + [CONNECTED], s.removals);
      case Wait =>
        SameFits(w, DoNext(w), s.readers, s.removals);
    }
  }

  lemma IdleInHand(s: System, n: nat)
    requires Linked(s) && n < |s.world.pool.available|
    requires s.world.pool.available[n] !in s.world.closed
    ensures InHand(s.world, s.removals, s.world.pool.available[n])
  {
    hide Fits;
    var w, c := s.world, s.world.pool.available[n];
    assert c in w.pool.available;
    assert Slot(c, true) in w.pool.slots ==> OneOwner(w, c, None);
    assert Slot(c, false) in w.pool.slots ==> NoOwner(w, c);
  }

  lemma MadeLinked(s: System, c: nat)
    requires Linked(s) && Slot(c, false) in s.world.pool.slots && Sane(s.world)
    ensures SystemFits(WithWorld(s, DoConnected(s.world, c)))
  {
    var w := s.world;
    var mid := w.(pool := w.pool.(slots := MarkDone(w.pool.slots, c)));
    MadeFits(s, c);
    hide FitsAll;
    hide Fits;
    if c in w.opening {
      var mid1 := mid.(opening := w.opening - {c});
      SameFits(mid, mid1, s.readers, s.removals);
      WriteLinked(s, mid1, c, w.opening[c]);
    } else {
      GiveBackLinked(s, mid, c);
    }
  }

  lemma MadeFits(s: System, c: nat)
    requires Linked(s) && Slot(c, false) in s.world.pool.slots
    ensures var mid := s.world.(pool := s.world.pool.(slots := MarkDone(s.world.pool.slots, c)));
            FitsAll(mid, s.readers, s.removals) && InHand(mid, s.removals, c)
  {
    hide OnConn;
    hide Accounted;
    hide Consistent;
    var w := s.world;
    var mid := w.(pool := w.pool.(slots := MarkDone(w.pool.slots, c)));
    MarkDoneKeeps(w.pool.slots, c);
    assert NoOwner(w, c);
    forall d: nat | d < w.conns ensures Fits(mid, s.removals, d, s.readers[d]) {
      assert Fits(w, s.removals, d, s.readers[d]);
    }
  }

  lemma CloseLinked(s: System, c: nat)
    requires Owned(s.world, None) && c < s.world.conns && !Unmade(s.world, c) && !s.refused
    requires FitsAll(s.world.(closed := s.world.closed + {c}, closing := s.world.closing - {c}), s.readers, s.removals)
    ensures SystemFits(WithWorld(s, DoClose(s.world, c)))
  {
    hide Fits;
    hide Kept;
    hide MatchCount;
    var w := s.world;
    if c in w.closed {
      assert w.closed + {c} == w.closed && w.closing - {c} == w.closing;
    } else {
      CloseOwned(w, c);
      var closed := w.closed + {c};
      var w1 := w.(closed := closed, closing := w.closing - {c}, pool := Removed(w.pool, closed, c));
      RemovedFits(w, s.readers, s.removals, c);
      KeptCounts(w.pool.slots, c);
      if w1.pool.waiting != [] && CanOpen(w1.pool) {
        OpenFits(w1, s.readers, s.removals);
      }
    }
  }

  lemma RemovedFits(w: World, readers: seq<Reader>, removals: set<nat>, c: nat)
    requires FitsAll(w.(closed := w.closed + {c}, closing := w.closing - {c}), readers, removals)
    ensures FitsAll(w.(closed := w.closed + {c}, closing := w.closing - {c},
                       pool := Removed(w.pool, w.closed + {c}, c)), readers, removals)
  {
    hide OnConn;
    hide Accounted;
    hide Consistent;
    hide Kept;
    hide MatchCount;
    var w0 := w.(closed := w.closed + {c}, closing := w.closing - {c});
    var v := w0.(pool := Removed(w.pool, w.closed + {c}, c));
    KeptCounts(w.pool.slots, c);
    var n := DropStaleSuffix(w.pool.available, w.closed + {c});
    forall d: nat | d < w.conns ensures Fits(v, removals, d, readers[d]) {
      assert Fits(w0, removals, d, readers[d]);
    }
  }

  /** A reader has closed while its connection is still open for the pool. */
  lemma ClosedReaderLinked(s: System, c: nat, after: Reader)
    requires Linked(s) && Sound(s) && Sane(s.world) && IsMade(s, c) && !s.readers[c].closed
    requires Consistent(after) && Accounted(after) && after.closed
    requires after.attached == s.readers[c].attached && after.res.Some? == s.readers[c].res.Some?
    requires after.res.Some? ==> after.res.value.id == s.readers[c].res.value.id
    ensures Linked(WithWorld(s.(readers := s.readers[c := after]), DoClose(s.world, c)))
  {
    var w, readers := s.world, s.readers[c := after];
    var w0 := w.(closed := w.closed + {c}, closing := w.closing - {c});
    assert Fits(w, s.removals, c, s.readers[c]);
    assert c !in w.closed && c !in s.removals;
    ReplaceFits(s, w0, s.removals, c, after);
    hide FitsAll;
    CloseLinked(s.(readers := readers), c);
    hide Inv;
    InvKept(w, PoolRuns.Close(c));
  }

  /** One reader changes, and the world's view of its connection with it. */
  lemma ReplaceFits(s: System, v: World, removals: set<nat>, c: nat, after: Reader)
    requires FitsAll(s.world, s.readers, s.removals) && c < s.world.conns && Slot(c, false) !in s.world.pool.slots
    requires v.writes == s.world.writes && v.conns == s.world.conns && v.pool == s.world.pool
    requires v.closed - {c} == s.world.closed - {c} && removals - {c} == s.removals - {c}
    requires v.busy - {c} == s.world.busy - {c}
    requires v.closing - {c} == s.world.closing - {c} && (c in v.closing ==> c in removals)
    requires c in removals ==> c !in v.closed && c !in v.pool.available
    requires Fits(v, removals, c, after)
    ensures FitsAll(v, s.readers[c := after], removals)
  {
    hide OnConn;
    hide Accounted;
    hide Consistent;
    var w := s.world;
    forall d: nat | d != c ensures SameView(w, s.removals, v, removals, d) {
      assert d in v.closed <==> d in v.closed - {c};
      assert d in w.closed <==> d in w.closed - {c};
      assert d in removals <==> d in removals - {c};
      assert d in s.removals <==> d in s.removals - {c};
      assert d in v.closing <==> d in v.closing - {c};
      assert d in w.closing <==> d in w.closing - {c};
      assert d in v.busy <==> d in v.busy - {c};
      assert d in w.busy <==> d in w.busy - {c};
      assert d in v.busy ==> v.busy[d] == (v.busy - {c})[d];
    }
    var readers := s.readers[c := after];
    forall d: nat | d < w.conns ensures Fits(v, removals, d, readers[d]) {
      assert d != c ==> Fits(w, s.removals, d, s.readers[d]) && SameView(w, s.removals, v, removals, d);
    }
    forall d: nat | d in removals
      ensures d < w.conns && d !in v.closed && d !in v.pool.available && Slot(d, false) !in v.pool.slots {
      assert d != c ==> SameView(w, s.removals, v, removals, d);
    }
    forall d: nat | d in v.closing ensures d in removals {
      assert d != c ==> SameView(w, s.removals, v, removals, d);
    }
  }

  /** The two worlds agree on a connection. */
  predicate SameView(w: World, wr: set<nat>, v: World, vr: set<nat>, d: nat) {
    && (d in v.closed <==> d in w.closed) && (d in vr <==> d in wr) && (d in v.closing <==> d in w.closing)
    && (d in v.busy <==> d in w.busy) && (d in v.busy ==> v.busy[d] == w.busy[d])
  }

  /** The connection of a current response is not idle. */
  lemma BusyNotIdle(w: World, c: nat)
    requires Owned(w, None) && c < w.conns && c !in w.closed && c in w.busy
    ensures c !in w.pool.available && c !in w.closing && Slot(c, false) !in w.pool.slots
  {
    assert Slot(c, true) in w.pool.slots ==> OneOwner(w, c, None);
    assert Slot(c, false) in w.pool.slots ==> NoOwner(w, c);
  }

  lemma ReleaseLinked(s: System, c: nat, after: Reader)
    requires Linked(s) && Sound(s) && Sane(s.world) && IsMade(s, c) && c !in s.removals && c in s.world.busy
    requires Consistent(after) && Accounted(after) && after.closed == s.readers[c].closed && after.res.None?
    requires after.attached == s.readers[c].attached
    ensures Linked(WithWorld(s.(readers := s.readers[c := after]), DoAnswered(s.world, c)))
  {
    var w := s.world;
    var mid := w.(busy := w.busy - {c}, answers := w.answers + [(c, w.busy[c])]);
    assert Fits(w, s.removals, c, s.readers[c]);
    ReplaceFits(s, mid, s.removals, c, after);
    hide FitsAll;
    GiveBackLinked(s.(readers := s.readers[c := after]), mid, c);
    hide Inv;
    InvKept(w, PoolRuns.Answered(c));
  }

  lemma LastAnswerInv(w: World, c: nat)
    requires Inv(w) && Sane(w) && !w.badErase && c in w.busy && c < w.conns && Slot(c, false) !in w.pool.slots
    ensures Inv(DoLastAnswer(w, c))
    ensures c !in w.closed ==> c !in w.pool.available && c !in w.closing
  {
    if c !in w.closed {
      BusyNotIdle(w, c);
    }
    hide Inv;
    InvKept(w, PoolRuns.LastAnswer(c));
  }

  /** Another connection sees nothing of a last answer. */
  lemma LastAnswerView(w: World, removals: set<nat>, c: nat)
    requires c in w.busy
    ensures var v := DoLastAnswer(w, c);
            && v.writes == w.writes && v.conns == w.conns && v.pool == w.pool && v.closed == w.closed
            && c !in v.busy && v.busy - {c} == w.busy - {c} && v.closing - {c} == w.closing - {c}
            && v.closing == if c in w.closed then w.closing else w.closing + {c}
    ensures removals + {c} - {c} == removals - {c}
  {
  }

  lemma LastAnswerLinked(s: System, c: nat, after: Reader)
    requires Linked(s) && Sound(s) && Sane(s.world) && IsMade(s, c) && c !in s.removals && c in s.world.busy
    requires Consistent(after) && Accounted(after) && after.closed && after.res.None?
    requires after.attached == s.readers[c].attached
    ensures var removals := if s.readers[c].closed then s.removals else s.removals + {c};
            Linked(System(DoLastAnswer(s.world, c), s.readers[c := after], removals, s.refused))
  {
    LastAnswerInv(s.world, c);
    LastAnswerView(s.world, s.removals, c);
    hide Inv;
    hide DoLastAnswer;
    hide Sane;
    hide OnConn;
    hide Accounted;
    hide Consistent;
    assert Fits(s.world, s.removals, c, s.readers[c]);
    if s.readers[c].closed {
      ReplaceFits(s, DoLastAnswer(s.world, c), s.removals, c, after);
    } else {
      ReplaceFits(s, DoLastAnswer(s.world, c), s.removals + {c}, c, after);
    }
  }

  /** A report has come before the close, which the pool does not know of yet. */
  lemma ReportedFirstLinked(s: System, c: nat, after: Reader)
    requires Linked(s) && IsMade(s, c) && !s.readers[c].closed && c in s.world.busy
    requires Consistent(after) && Accounted(after) && after.closed && after.attached == s.readers[c].attached
    requires after.res.Some? && after.res.value.id == s.readers[c].res.value.id
    ensures Linked(s.(readers := s.readers[c := after], removals := s.removals + {c}))
  {
    assert Fits(s.world, s.removals, c, s.readers[c]);
    BusyNotIdle(s.world, c);
    ReplaceFits(s, s.world, s.removals + {c}, c, after);
  }

  lemma SameReaderFits(s: System, c: nat, after: Reader)
    requires Linked(s) && IsMade(s, c) && Consistent(after) && Accounted(after)
    requires after.closed == s.readers[c].closed && after.attached == s.readers[c].attached
    requires after.res.Some? == s.readers[c].res.Some?
    requires after.res.Some? ==> after.res.value.id == s.readers[c].res.value.id
    ensures Linked(s.(readers := s.readers[c := after]))
  {
    assert Fits(s.world, s.removals, c, s.readers[c]);
    ReplaceFits(s, s.world, s.removals, c, after);
  }

  lemma ReaderLinked(s: System, c: nat, after: Reader)
    requires Linked(s) && Sound(s) && Sane(s.world) && IsMade(s, c) && c !in s.removals
    requires Consistent(after) && Accounted(after) && Ending(s.readers[c], after)
    requires c in s.world.busy <==> s.readers[c].res.Some?
    ensures Linked(OnReader(s, c, after))
  {
    hide Linked;
    hide Sound;
    hide Accounted;
    hide Consistent;
    hide DoClose;
    hide DoAnswered;
    hide DoLastAnswer;
    hide WithWorld;
    hide Report;
    var calls := NewCalls(s.readers[c], after);
    if Release in calls {
      ReleaseLinked(s, c, after);
    } else if Remove in calls && calls[0] == Remove {
      ClosedReaderLinked(s, c, after);
    } else if calls != [] && IsDone(calls[0]) {
      LastAnswerLinked(s, c, after);
    } else if Remove in calls {
      ReportedFirstLinked(s, c, after);
    } else {
      SameReaderFits(s, c, after);
    }
  }

  lemma NextLinked(s: System, e: Event)
    requires Linked(s) && Possible(s, e)
    ensures Linked(Next(s, e))
  {
    LinkedSane(s);
    hide Inv;
    match e {
      case Request =>
        RequestLinked(s);
        InvKept(s.world, PoolRuns.Next);
      case Made(c) =>
        MadeLinked(s, c);
        InvKept(s.world, PoolRuns.Connected(c));
      case Refused(c) =>
        RefusedLinked(s, c);
      case On(c, event) =>
        OnLinked(s, c, event);
      case Removal(c) =>
        RemovalLinked(s, c);
    }
  }

  lemma OnLinked(s: System, c: nat, event: HttpReader.Event)
    requires Linked(s) && Sane(s.world) && Possible(s, On(c, event))
    ensures Linked(Next(s, On(c, event)))
  {
    hide Inv;
    hide FitsAll;
    hide Accounted;
    hide Ending;
    hide OnReader;
    var r := s.readers[c];
    ReaderOf(s, c);
    AfterConsistent(r, event);
    AfterAccounted(r, event);
    AfterOutcome(r, event);
    ReaderLinked(s, c, After(r, event));
  }

  /** The connection never came up: the erase is undefined, and everything else stays. */
  lemma RefusedLinked(s: System, c: nat)
    requires Linked(s) && Sane(s.world) && Possible(s, Refused(c))
    ensures Linked(Next(s, Refused(c))) && Next(s, Refused(c)).world.badErase
  {
    var w := s.world;
    CloseOwned(w, c);
    SameFits(w, w.(badErase := true), s.readers, s.removals);
    InvKept(w, PoolRuns.Close(c));
  }

  lemma RemovalLinked(s: System, c: nat)
    requires Linked(s) && Sound(s) && Sane(s.world) && c in s.removals
    ensures Linked(WithWorld(s.(removals := s.removals - {c}), DoClose(s.world, c)))
  {
    var w, removals := s.world, s.removals - {c};
    var w0 := w.(closed := w.closed + {c}, closing := w.closing - {c});
    assert Fits(w, s.removals, c, s.readers[c]);
    ReplaceFits(s, w0, removals, c, s.readers[c]);
    assert s.readers[c := s.readers[c]] == s.readers;
    hide FitsAll;
    hide Inv;
    CloseLinked(s.(removals := removals), c);
    InvKept(w, PoolRuns.Close(c));
  }

  // ---- Every run of the whole system. ----

  ghost predicate AllPossible(s: System, events: seq<Event>)
    requires Linked(s)
    decreases |events|
  {
    events == [] ||
    (Possible(s, events[0]) && (NextLinked(s, events[0]); AllPossible(Next(s, events[0]), events[1..])))
  }

  ghost function Run(s: System, events: seq<Event>): System
    requires Linked(s) && AllPossible(s, events)
    decreases |events|
  {
    if events == [] then s else NextLinked(s, events[0]); Run(Next(s, events[0]), events[1..])
  }

  lemma BeginLinked(limit: bool, max: nat)
    ensures Linked(Begin(limit, max)) && Sound(Begin(limit, max)) && !Begin(limit, max).world.stale
  {
    StartInv(limit, max);
  }

  lemma {:induction false} RunLinked(s: System, events: seq<Event>)
    requires Linked(s) && AllPossible(s, events)
    ensures Linked(Run(s, events))
    decreases |events|
  {
    hide Linked;
    hide Next;
    hide Possible;
    if events != [] {
      NextLinked(s, events[0]);
      RunLinked(Next(s, events[0]), events[1..]);
    }
  }

  /** A connection that never came up, or a request that fails after its response is complete. */
  predicate Mishap(s: System, e: Event) {
    e.Refused? || (e.On? && e.event.WriteError? && e.conn < |s.readers| && s.readers[e.conn].res.None?)
  }

  lemma UnsoundIff(s: System, e: Event)
    requires Linked(s) && Possible(s, e)
    ensures Sound(Next(s, e)) <==> !Mishap(s, e)
  {
    hide FitsAll;
    hide Inv;
    hide WithWorld;
    LinkedSane(s);
    match e {
      case Request =>
        BadEraseStep(s.world, PoolRuns.Next);
        WithWorldSound(s, DoNext(s.world));
      case Made(c) =>
        BadEraseStep(s.world, PoolRuns.Connected(c));
        WithWorldSound(s, DoConnected(s.world, c));
      case Refused(c) => RefusedLinked(s, c);
      case On(c, event) => OnUnsoundIff(s, c, event);
      case Removal(c) =>
        RemovalMade(s, c);
        BadEraseStep(s.world, PoolRuns.Close(c));
        WithWorldSound(s.(removals := s.removals - {c}), DoClose(s.world, c));
    }
  }

  lemma RemovalMade(s: System, c: nat)
    requires Linked(s) && c in s.removals
    ensures c < s.world.conns && !Unmade(s.world, c)
  {
  }

  lemma OnUnsoundIff(s: System, c: nat, event: HttpReader.Event)
    requires Linked(s) && Possible(s, On(c, event))
    ensures Sound(Next(s, On(c, event))) <==> !Mishap(s, On(c, event))
  {
    hide FitsAll;
    hide Inv;
    hide Ending;
    hide OnReader;
    hide After;
    hide Sound;
    LinkedSane(s);
    ReaderOf(s, c);
    CrashStep(s.readers[c], event);
    AfterOutcome(s.readers[c], event);
    OnReaderSound(s, c, After(s.readers[c], event));
  }

  lemma OnReaderSound(s: System, c: nat, after: Reader)
    requires Linked(s) && Sound(s) && Sane(s.world) && IsMade(s, c) && Ending(s.readers[c], after)
    ensures Sound(OnReader(s, c, after)) <==> !after.crashed
  {
    hide FitsAll;
    hide Inv;
    hide DoClose;
    hide DoAnswered;
    hide WithWorld;
    hide Report;
    var calls := NewCalls(s.readers[c], after);
    var s1 := s.(readers := s.readers[c := after]);
    assert s1.readers[c] == after && forall d | 0 <= d < |s.readers| && d != c :: s1.readers[d] == s.readers[d];
    if Release in calls && c in s.world.busy {
      BadEraseStep(s.world, PoolRuns.Answered(c));
      WithWorldSound(s1, DoAnswered(s.world, c));
    } else if Remove in calls && calls[0] == Remove {
      BadEraseStep(s.world, PoolRuns.Close(c));
      WithWorldSound(s1, DoClose(s.world, c));
    }
  }

  lemma WithWorldSound(s: System, after: World)
    requires !s.world.badErase && !after.badErase
    ensures Sound(WithWorld(s, after)) <==> Sound(s)
  {
    var next := WithWorld(s, after);
    assert forall c | 0 <= c < |s.readers| :: next.readers[c].crashed == s.readers[c].crashed;
  }

  ghost predicate SomeMishap(s: System, events: seq<Event>)
    requires Linked(s) && AllPossible(s, events)
    decreases |events|
  {
    events != [] &&
    (Mishap(s, events[0]) || (NextLinked(s, events[0]); SomeMishap(Next(s, events[0]), events[1..])))
  }

  /**
   * An element is erased where there is none, or a null response dereferenced, on exactly the
   * runs where a connection fails to come up, or the writing of a request fails when its
   * connection has no current response; and such a run ends there.
   */
  lemma {:induction false} UndefinedIff(s: System, events: seq<Event>)
    requires Linked(s) && Sound(s) && AllPossible(s, events)
    ensures Sound(Run(s, events)) <==> !SomeMishap(s, events)
    decreases |events|
  {
    hide Linked;
    hide Sound;
    hide Next;
    hide Mishap;
    if events != [] {
      var next := Next(s, events[0]);
      NextLinked(s, events[0]);
      UnsoundIff(s, events[0]);
      if Sound(next) {
        UndefinedIff(next, events[1..]);
      } else {
        assert events[1..] == [];
      }
    }
  }

  /** A response is completed after its connection was closed, while a request waits. */
  predicate LateRelease(s: System, e: Event)
    requires Linked(s) && Possible(s, e)
  {
    e.On? && e.conn in s.world.closed && s.world.pool.waiting != [] &&
    (ReaderOf(s, e.conn);
     AfterOutcome(s.readers[e.conn], e.event);
     Release in NewCalls(s.readers[e.conn], After(s.readers[e.conn], e.event)))
  }

  lemma StaleStepIff(s: System, e: Event)
    requires Linked(s) && Possible(s, e)
    ensures Next(s, e).world.stale <==> s.world.stale || LateRelease(s, e)
  {
    hide FitsAll;
    hide Inv;
    hide Ending;
    hide After;
    LinkedSane(s);
    match e {
      case Request => StaleStep(s.world, PoolRuns.Next);
      case Made(c) => StaleStep(s.world, PoolRuns.Connected(c));
      case Refused(c) => RefusedStale(s, c);
      case On(c, event) =>
        ReaderOf(s, c);
        AfterOutcome(s.readers[c], event);
        ReaderStale(s, c, After(s.readers[c], event));
      case Removal(c) =>
        RemovalMade(s, c);
        StaleStep(s.world, PoolRuns.Close(c));
    }
  }

  lemma RefusedStale(s: System, c: nat)
    requires Linked(s) && Possible(s, Refused(c))
    ensures DoClose(s.world, c).stale == s.world.stale
  {
    LinkedSane(s);
    assert c < s.world.conns;
    StaleStep(s.world, PoolRuns.Close(c));
  }

  lemma ReaderStale(s: System, c: nat, after: Reader)
    requires Linked(s) && Sound(s) && Sane(s.world) && IsMade(s, c) && Ending(s.readers[c], after)
    requires c in s.world.busy <==> s.readers[c].res.Some?
    ensures OnReader(s, c, after).world.stale <==>
            s.world.stale ||
            (Release in NewCalls(s.readers[c], after) && c in s.world.closed && s.world.pool.waiting != [])
  {
    hide FitsAll;
    hide Inv;
    hide DoAnswered;
    hide DoClose;
    hide Report;
    if c in s.world.busy {
      StaleStep(s.world, PoolRuns.Answered(c));
    }
    StaleStep(s.world, PoolRuns.Close(c));
  }

  ghost predicate SomeLateRelease(s: System, events: seq<Event>)
    requires Linked(s) && AllPossible(s, events)
    decreases |events|
  {
    events != [] &&
    (LateRelease(s, events[0]) || (NextLinked(s, events[0]); SomeLateRelease(Next(s, events[0]), events[1..])))
  }

  /** A request is written to a closed connection on exactly the runs with a late release. */
  lemma {:induction false} WrittenToClosedIff(s: System, events: seq<Event>)
    requires Linked(s) && AllPossible(s, events)
    ensures Run(s, events).world.stale <==> s.world.stale || SomeLateRelease(s, events)
    decreases |events|
  {
    hide Linked;
    hide Next;
    hide LateRelease;
    hide Possible;
    if events != [] {
      NextLinked(s, events[0]);
      StaleStepIff(s, events[0]);
      WrittenToClosedIff(Next(s, events[0]), events[1..]);
    }
  }

  /**
   * On every run of pool and readers together, with any bytes, errors and timeouts on any
   * connection, before and after a close: a request is only ever attached to a reader without a
   * current response, and to an open one unless a response is completed after its connection
   * was closed while a request waits; on each connection the attempts reported on are, in order,
   * those that the pool wrote to it, short of at most the one in progress; and a connection
   * reaches the pool's `remove` once if it closed, else never. The run goes on, unless a
   * connection fails to come up or the writing of a request fails without a current response.
   */
  lemma EveryRunSettlesItsOwn(s: System, events: seq<Event>)
    requires Linked(s) && Sound(s) && !s.world.stale && AllPossible(s, events)
    ensures var end := Run(s, events);
            && !end.refused && !end.world.clash
            && (end.world.stale <==> SomeLateRelease(s, events))
            && (Sound(end) <==> !SomeMishap(s, events))
            && |end.readers| == end.world.conns
            && forall c: nat | c < |end.readers| ::
                 && OnConn(end.world.writes, c) == SettledIds(end.readers[c].calls) + Pending(end.readers[c])
                 && RemoveCount(end.readers[c].calls) == (if c in end.world.closed || c in end.removals then 1 else 0)
  {
    hide Run;
    hide AllPossible;
    hide SomeMishap;
    hide SomeLateRelease;
    hide OnConn;
    RunLinked(s, events);
    UndefinedIff(s, events);
    WrittenToClosedIff(s, events);
    var end := Run(s, events);
    forall c: nat | c < |end.readers|
      ensures OnConn(end.world.writes, c) == SettledIds(end.readers[c].calls) + Pending(end.readers[c])
      ensures RemoveCount(end.readers[c].calls) == if c in end.world.closed || c in end.removals then 1 else 0
    {
      assert Fits(end.world, end.removals, c, end.readers[c]);
    }
  }
}
