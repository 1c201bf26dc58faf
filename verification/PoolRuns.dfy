/** The pool, its connections and the requests together, on every run. */
module PoolRuns {
  import opened Prelude
  import opened Pool

  /** Where an attempt is: queued, waiting for its own new connection, or written. */
  datatype Place = Waiting | Opening(conn: nat) | Written(conn: nat)

  /**
   * Connections and attempts are numbered in order of creation. `closed` holds the connections
   * whose close() ran, `opening` those made for one attempt, `busy` those with a current
   * response, and `closing` those whose last response asked for a close that is still to come.
   * The sequences are history. `clash` records a request written over a current response,
   * `stale` one written to a closed connection, and `badErase` a removal that found no future
   * to erase: the vector is corrupted then, and nothing is defined any more.
   */
  datatype World = World(
    pool: Pool<nat>,
    closed: set<nat>,
    opening: map<nat, nat>,
    busy: map<nat, nat>,
    closing: set<nat>,
    conns: nat,
    place: seq<Place>,
    queued: seq<nat>,
    served: seq<nat>,
    writes: seq<(nat, nat)>,
    answers: seq<(nat, nat)>,
    clash: bool,
    stale: bool,
    badErase: bool)

  datatype Step =
    | Next
    | Connected(conn: nat)
    | Answered(conn: nat)
    | LastAnswer(conn: nat)
    | Close(conn: nat)

  /** A new pool, with its two limits as set before the first request. */
  function Start(limit: bool, max: nat): World {
    World(Pool([], [], [], limit, max), {}, map[], map[], {}, 0, [], [], [], [], [], false, false, false)
  }

  // ---- The steps. ----

  /** `conn->write_request(res)` for the attempt `a`. */
  function WriteTo(w: World, c: nat, a: nat): World
    requires a < |w.place|
  {
    w.(clash := w.clash || c in w.busy,
       stale := w.stale || c in w.closed,
       busy := w.busy[c := a],
       place := w.place[a := Written(c)],
       writes := w.writes + [(c, a)])
  }

  /** `release(conn)`, including the write for the request it serves. */
  function GiveBack(w: World, c: nat): World
    requires forall a <- w.pool.waiting :: a < |w.place|
  {
    var (p, request) := Released(w.pool, c);
    match request
    case None => w.(pool := p)
    case Some(a) =>
      assert w.pool.waiting[0] in w.pool.waiting;
      WriteTo(w.(pool := p, served := w.served + [a]), c, a)
  }

  /** `connect()`: a connection that is on its way. */
  function OpenOne(w: World): World {
    w.(pool := Opened(w.pool, w.conns), conns := w.conns + 1)
  }

  /** `next()` for a new attempt. */
  function DoNext(w: World): World {
    var a := |w.place|;
    match Choose(w.pool, w.closed)
    case Idle(c, rest) =>
      WriteTo(w.(pool := w.pool.(available := rest), place := w.place + [Waiting]), c, a)
    case Open =>
      OpenOne(w.(pool := w.pool.(available := []), opening := w.opening[w.conns := a],
                 place := w.place + [Opening(w.conns)]))
    case Wait =>
      w.(pool := Enqueued(w.pool.(available := []), a), place := w.place + [Waiting], queued := w.queued + [a])
  }

  /** The connection is made; it serves the attempt it was made for, or the queue. */
  function DoConnected(w: World, c: nat): World
    requires Sane(w)
  {
    var w1 := w.(pool := w.pool.(slots := MarkDone(w.pool.slots, c)));
    if c in w.opening then WriteTo(w1.(opening := w.opening - {c}), c, w.opening[c])
    else GiveBack(w1, c)
  }

  /** A response is complete: its object is detached, then the connection is released. */
  function DoAnswered(w: World, c: nat): World
    requires Sane(w) && c in w.busy
  {
    GiveBack(w.(busy := w.busy - {c}, answers := w.answers + [(c, w.busy[c])]), c)
  }

  function DoLastAnswer(w: World, c: nat): World
    requires c in w.busy
  {
    w.(busy := w.busy - {c}, answers := w.answers + [(c, w.busy[c])],
       closing := if c in w.closed then w.closing else w.closing + {c})
  }

  /** The connection is closed, and removed from the pool. */
  function Leaving(w: World, c: nat): World {
    var closed := w.closed + {c};
    w.(closed := closed, closing := w.closing - {c}, pool := Removed(w.pool, closed, c))
  }

  /** `close()`: only the first one removes the connection; a waiting request gets a new one. */
  function DoClose(w: World, c: nat): World {
    if c in w.closed then w
    else if MatchCount(w.pool.slots, c) != 1 then w.(badErase := true)
    else
      var w1 := Leaving(w, c);
      if w1.pool.waiting != [] && CanOpen(w1.pool) then OpenOne(w1) else w1
  }

  /** Attempt numbers kept anywhere are numbers of attempts. */
  predicate Sane(w: World) {
    && (forall a <- w.pool.waiting :: a < |w.place|)
    && (forall c <- w.opening :: w.opening[c] < |w.place|)
  }

  /** A connection is closed at any time, and a response may be completed after that. */
  predicate Enabled(w: World, s: Step) {
    !w.badErase &&
    match s
    case Next => true
    case Connected(c) => Slot(c, false) in w.pool.slots
    case Answered(c) => c in w.busy
    case LastAnswer(c) => c in w.busy
    case Close(c) => c < w.conns
  }

  function Do(w: World, s: Step): World
    requires Sane(w) && Enabled(w, s)
  {
    match s
    case Next => DoNext(w)
    case Connected(c) => DoConnected(w, c)
    case Answered(c) => DoAnswered(w, c)
    case LastAnswer(c) => DoLastAnswer(w, c)
    case Close(c) => DoClose(w, c)
  }

  // ---- The invariant. ----

  /** Exactly one of: idle in the pool, with a current response, about to close, in hand. */
  predicate OneOwner(w: World, c: nat, hand: Option<nat>) {
    var idle, held, ending, taken := c in w.pool.available, c in w.busy, c in w.closing, hand == Some(c);
    && (idle || held || ending || taken)
    && !(idle && held) && !(idle && ending) && !(idle && taken)
    && !(held && ending) && !(held && taken) && !(ending && taken)
  }

  predicate NoOwner(w: World, c: nat) {
    c !in w.pool.available && c !in w.busy && c !in w.closing
  }

  predicate NoDuplicates(s: seq<nat>) {
    forall i, j | 0 <= i < j < |s| :: s[i] != s[j]
  }

  /** Connections: each live one has a slot and, once made, exactly one owner. */
  ghost predicate Owned(w: World, hand: Option<nat>) {
    && Distinct(w.pool.slots)
    && NoDuplicates(w.pool.available)
    && (forall s <- w.pool.slots :: s.conn < w.conns && s.conn !in w.closed)
    && (forall c: nat | c < w.conns && c !in w.closed ::
          Slot(c, true) in w.pool.slots || Slot(c, false) in w.pool.slots)
    && (forall c: nat | Slot(c, true) in w.pool.slots :: OneOwner(w, c, hand))
    && (forall c: nat | Slot(c, false) in w.pool.slots :: NoOwner(w, c))
    && (forall c <- w.closed :: c < w.conns)
    && (forall c <- w.pool.available :: c < w.conns)
    && (forall c <- w.busy :: c < w.conns && c !in w.pool.available)
    && (forall c <- w.closing :: c < w.conns && c !in w.closed)
    && (forall c <- w.opening :: Slot(c, false) in w.pool.slots)
    && (hand.Some? ==> Slot(hand.value, true) in w.pool.slots)
  }

  /** The limit holds, and while a request waits every slot is taken and none is idle. */
  predicate Limits(w: World) {
    && (w.pool.limit ==> |w.pool.slots| <= w.pool.max)
    && (w.pool.waiting != [] ==>
          w.pool.limit && w.pool.available == [] && |w.pool.slots| == w.pool.max)
  }

  /** Attempts: each is queued, opening or written, in one place and once. */
  ghost predicate Placed(w: World) {
    && NoDuplicates(w.pool.waiting)
    && (forall a <- w.pool.waiting :: a < |w.place| && w.place[a] == Waiting)
    && (forall c <- w.opening :: w.opening[c] < |w.place| && w.place[w.opening[c]] == Opening(c))
    && (forall p <- w.writes :: p.1 < |w.place| && w.place[p.1] == Written(p.0))
    && (forall i, j | 0 <= i < j < |w.writes| :: w.writes[i].1 != w.writes[j].1)
    && (forall a: nat | a < |w.place| :: Found(w, a))
  }

  /** An attempt is where its place says. */
  predicate Found(w: World, a: nat)
    requires a < |w.place|
  {
    match w.place[a]
    case Waiting => a in w.pool.waiting
    case Opening(c) => c in w.opening && w.opening[c] == a
    case Written(c) => (c, a) in w.writes
  }

  /** The attempts of one connection, in order. */
  function OnConn(log: seq<(nat, nat)>, c: nat): seq<nat> {
    if log == [] then []
    else OnConn(log[..|log| - 1], c) + if log[|log| - 1].0 == c then [log[|log| - 1].1] else []
  }

  function Current(busy: map<nat, nat>, c: nat): seq<nat> {
    if c in busy then [busy[c]] else []
  }

  /** Waiting requests are served in order, and each connection answers in order of writing. */
  ghost predicate Ordered(w: World) {
    && w.queued == w.served + w.pool.waiting
    && forall c: nat :: OnConn(w.writes, c) == OnConn(w.answers, c) + Current(w.busy, c)
  }

  ghost predicate Inv(w: World) {
    Owned(w, None) && Limits(w) && Placed(w) && Ordered(w) && !w.clash
  }

  lemma PlacedSane(w: World)
    requires Placed(w)
    ensures Sane(w)
  {
  }

  // ---- Connections. ----

  lemma WriteToOwned(w: World, c: nat, a: nat)
    requires Owned(w, Some(c)) && a < |w.place|
    ensures c !in w.busy && c !in w.closed
    ensures Owned(WriteTo(w, c, a), None)
  {
    assert OneOwner(w, c, Some(c));
    var next := WriteTo(w, c, a);
    forall d: nat | Slot(d, true) in w.pool.slots ensures OneOwner(next, d, None) {
      assert OneOwner(w, d, Some(c));
    }
    forall d: nat | Slot(d, false) in w.pool.slots ensures NoOwner(next, d) {
      assert NoOwner(w, d);
      SlotIsOne(w, c);
    }
  }

  lemma SlotIsOne(w: World, c: nat)
    requires Distinct(w.pool.slots)
    ensures !(Slot(c, true) in w.pool.slots && Slot(c, false) in w.pool.slots)
  {
  }

  lemma PushOwned(w: World, c: nat)
    requires Owned(w, Some(c))
    ensures Owned(w.(pool := w.pool.(available := w.pool.available + [c])), None)
  {
    var next := w.(pool := w.pool.(available := w.pool.available + [c]));
    assert OneOwner(w, c, Some(c));
    assert forall d :: d in next.pool.available <==> d in w.pool.available || d == c;
    forall d: nat | Slot(d, true) in w.pool.slots ensures OneOwner(next, d, None) {
      assert OneOwner(w, d, Some(c));
    }
    forall d: nat | Slot(d, false) in w.pool.slots ensures NoOwner(next, d) {
      assert NoOwner(w, d);
      SlotIsOne(w, c);
    }
  }

  lemma GiveBackOwned(w: World, c: nat)
    requires Owned(w, Some(c)) && Sane(w)
    ensures Owned(GiveBack(w, c), None) && GiveBack(w, c).clash == w.clash
  {
    hide Owned;
    if w.pool.waiting == [] {
      PushOwned(w, c);
    } else {
      var a := w.pool.waiting[0];
      assert a in w.pool.waiting;
      var w1 := w.(pool := w.pool.(waiting := w.pool.waiting[1..]), served := w.served + [a]);
      SameOwners(w, w1, Some(c));
      WriteToOwned(w1, c, a);
    }
  }

  lemma SameOwners(w: World, v: World, hand: Option<nat>)
    requires Owned(w, hand)
    requires v.pool.slots == w.pool.slots && v.pool.available == w.pool.available
    requires v.closed == w.closed && v.opening == w.opening && v.busy == w.busy && v.closing == w.closing
    requires v.conns == w.conns
    ensures Owned(v, hand)
  {
    assert forall c: nat :: OneOwner(w, c, hand) <==> OneOwner(v, c, hand);
    assert forall c: nat :: NoOwner(w, c) <==> NoOwner(v, c);
  }

  lemma OpenOwned(w: World, opening: map<nat, nat>)
    requires Owned(w, None)
    requires opening.Keys <= w.opening.Keys + {w.conns}
    ensures Owned(OpenOne(w).(opening := opening), None)
  {
    var c := w.conns;
    var next := OpenOne(w).(opening := opening);
    assert next.pool.slots == w.pool.slots + [Slot(c, false)];
    assert Slot(c, false) in next.pool.slots;
    assert forall s :: s in next.pool.slots <==> s in w.pool.slots || s == Slot(c, false);
    assert NoOwner(w, c);
    forall d: nat | Slot(d, true) in next.pool.slots ensures OneOwner(next, d, None) {
      assert OneOwner(w, d, None);
    }
    forall d: nat | Slot(d, false) in next.pool.slots ensures NoOwner(next, d) {
      assert d != c ==> NoOwner(w, d);
    }
    forall i, j | 0 <= i < j < |next.pool.slots| ensures next.pool.slots[i].conn != next.pool.slots[j].conn {
      assert w.pool.slots[i] in w.pool.slots;
    }
  }

  lemma NextOwned(w: World)
    requires Owned(w, None) && Sane(w)
    ensures Owned(DoNext(w), None) && DoNext(w).clash == w.clash
  {
    hide Owned;
    hide DropStale;
    var n := DropStaleSuffix(w.pool.available, w.closed);
    match Choose(w.pool, w.closed) {
      case Idle(c, rest) =>
        IdleOwned(w, n);
        NextIdleOwned(w, c, rest);
      case Open =>
        DrainedOwned(w);
        NextOpenOwned(w);
      case Wait =>
        DrainedOwned(w);
        SameOwners(w.(pool := w.pool.(available := [])), DoNext(w), None);
    }
  }

  lemma NextIdleOwned(w: World, c: nat, rest: seq<nat>)
    requires Choose(w.pool, w.closed) == Idle(c, rest)
    requires Owned(w.(pool := w.pool.(available := rest)), Some(c))
    ensures Owned(DoNext(w), None) && DoNext(w).clash == w.clash
  {
    hide Owned;
    hide DropStale;
    var w1 := w.(pool := w.pool.(available := rest));
    var w2 := w1.(place := w.place + [Waiting]);
    SameOwners(w1, w2, Some(c));
    WriteToOwned(w2, c, |w.place|);
  }

  lemma NextOpenOwned(w: World)
    requires Choose(w.pool, w.closed) == Open && Owned(w.(pool := w.pool.(available := [])), None)
    ensures Owned(DoNext(w), None) && DoNext(w).clash == w.clash
  {
    hide Owned;
    hide DropStale;
    var w1 := w.(pool := w.pool.(available := []));
    OpenOwned(w1, w.opening[w.conns := |w.place|]);
    SameOwners(OpenOne(w1).(opening := w.opening[w.conns := |w.place|]), DoNext(w), None);
  }

  /** Handing out the first connection that is not closed puts it in hand. */
  lemma IdleOwned(w: World, n: nat)
    requires Owned(w, None) && n < |w.pool.available|
    requires forall i | 0 <= i < n :: w.pool.available[i] in w.closed
    requires w.pool.available[n] !in w.closed
    ensures Owned(w.(pool := w.pool.(available := w.pool.available[n..][1..])), Some(w.pool.available[n]))
  {
    var c, rest := w.pool.available[n], w.pool.available[n..][1..];
    var next := w.(pool := w.pool.(available := rest));
    assert rest == w.pool.available[n + 1..];
    SuffixNoDuplicates(w.pool.available, n + 1);
    assert c in w.pool.available;
    assert NoOwner(w, c) || Slot(c, true) in w.pool.slots;
    forall d: nat | Slot(d, true) in w.pool.slots ensures OneOwner(next, d, Some(c)) {
      assert OneOwner(w, d, None);
      if d in w.pool.available && d != c {
        var i :| 0 <= i < |w.pool.available| && w.pool.available[i] == d;
        assert i > n;
        assert rest[i - n - 1] == d;
      }
    }
    forall d: nat | Slot(d, false) in w.pool.slots ensures NoOwner(next, d) {
      assert NoOwner(w, d);
    }
  }

  /** When no available connection can be used they are all closed, and may be dropped. */
  lemma DrainedOwned(w: World)
    requires Owned(w, None) && DropStale(w.pool.available, w.closed) == []
    ensures Owned(w.(pool := w.pool.(available := [])), None)
  {
    var n := DropStaleSuffix(w.pool.available, w.closed);
    DroppedOwned(w, n);
    assert w.pool.available[n..] == [];
  }

  lemma SuffixNoDuplicates(s: seq<nat>, n: nat)
    requires NoDuplicates(s) && n <= |s|
    ensures NoDuplicates(s[n..]) && forall x :: x in s[n..] ==> x in s
  {
    forall i, j | 0 <= i < j < |s| - n ensures s[n..][i] != s[n..][j] {
      assert s[n + i] != s[n + j];
    }
  }

  lemma DroppedOwned(w: World, n: nat)
    requires Owned(w, None) && n <= |w.pool.available|
    requires forall i | 0 <= i < n :: w.pool.available[i] in w.closed
    ensures Owned(w.(pool := w.pool.(available := w.pool.available[n..])), None)
  {
    var rest := w.pool.available[n..];
    SuffixNoDuplicates(w.pool.available, n);
    var next := w.(pool := w.pool.(available := rest));
    forall d: nat | Slot(d, true) in w.pool.slots ensures OneOwner(next, d, None) {
      assert OneOwner(w, d, None);
      if d in w.pool.available {
        var i :| 0 <= i < |w.pool.available| && w.pool.available[i] == d;
        assert rest[i - n] == d;
      }
    }
    forall d: nat | Slot(d, false) in w.pool.slots ensures NoOwner(next, d) {
      assert NoOwner(w, d);
    }
  }

  lemma ConnectedOwned(w: World, c: nat)
    requires Owned(w, None) && Sane(w) && Slot(c, false) in w.pool.slots
    ensures Owned(DoConnected(w, c), None) && DoConnected(w, c).clash == w.clash
  {
    var w1 := w.(pool := w.pool.(slots := MarkDone(w.pool.slots, c)), opening := w.opening - {c});
    MadeOwned(w, c);
    hide Owned;
    if c in w.opening {
      WriteToOwned(w1, c, w.opening[c]);
    } else {
      assert w.opening - {c} == w.opening;
      GiveBackOwned(w1, c);
    }
  }

  /** A connection that was on its way and is made is in hand. */
  lemma MadeOwned(w: World, c: nat)
    requires Owned(w, None) && Slot(c, false) in w.pool.slots
    ensures Owned(w.(pool := w.pool.(slots := MarkDone(w.pool.slots, c)), opening := w.opening - {c}), Some(c))
  {
    var next := w.(pool := w.pool.(slots := MarkDone(w.pool.slots, c)), opening := w.opening - {c});
    MarkDoneKeeps(w.pool.slots, c);
    assert NoOwner(w, c);
    forall d: nat | Slot(d, true) in next.pool.slots ensures OneOwner(next, d, Some(c)) {
      assert d != c ==> OneOwner(w, d, None);
    }
    forall d: nat | Slot(d, false) in next.pool.slots ensures NoOwner(next, d) {
      assert NoOwner(w, d);
    }
  }

  lemma AnsweredOwned(w: World, c: nat)
    requires Owned(w, None) && Sane(w) && c in w.busy
    ensures Owned(DoAnswered(w, c), None) && DoAnswered(w, c).clash == w.clash
  {
    var w1 := w.(busy := w.busy - {c}, answers := w.answers + [(c, w.busy[c])]);
    if c in w.closed {
      ClosedDetachedOwned(w, c);
      ClosedGiveBackOwned(w1, c);
    } else {
      DetachedOwned(w, c);
      hide Owned;
      GiveBackOwned(w1, c);
    }
  }

  /** A response that is complete after the close leaves the live connections alone. */
  lemma ClosedDetachedOwned(w: World, c: nat)
    requires Owned(w, None) && c in w.busy && c in w.closed
    ensures Owned(w.(busy := w.busy - {c}, answers := w.answers + [(c, w.busy[c])]), None)
  {
    var next := w.(busy := w.busy - {c}, answers := w.answers + [(c, w.busy[c])]);
    forall d: nat | Slot(d, true) in w.pool.slots ensures OneOwner(next, d, None) {
      assert OneOwner(w, d, None);
    }
    forall d: nat | Slot(d, false) in w.pool.slots ensures NoOwner(next, d) {
      assert NoOwner(w, d);
    }
  }

  /** A closed connection that is released becomes available, to be dropped later, or is written to. */
  lemma ClosedGiveBackOwned(w: World, c: nat)
    requires Owned(w, None) && Sane(w) && c in w.closed && c !in w.busy && c !in w.pool.available
    ensures Owned(GiveBack(w, c), None) && GiveBack(w, c).clash == w.clash
  {
    if w.pool.waiting == [] {
      ClosedPushOwned(w, c);
    } else {
      var a := w.pool.waiting[0];
      assert a in w.pool.waiting;
      var w1 := w.(pool := w.pool.(waiting := w.pool.waiting[1..]), served := w.served + [a]);
      SameOwners(w, w1, None);
      ClosedWriteOwned(w1, c, a);
    }
  }

  lemma ClosedPushOwned(w: World, c: nat)
    requires Owned(w, None) && c in w.closed && c !in w.busy && c !in w.pool.available
    ensures Owned(w.(pool := w.pool.(available := w.pool.available + [c])), None)
  {
    var next := w.(pool := w.pool.(available := w.pool.available + [c]));
    assert forall d :: d in next.pool.available <==> d in w.pool.available || d == c;
    forall d: nat | Slot(d, true) in w.pool.slots ensures OneOwner(next, d, None) {
      assert OneOwner(w, d, None);
    }
    forall d: nat | Slot(d, false) in w.pool.slots ensures NoOwner(next, d) {
      assert NoOwner(w, d);
    }
  }

  lemma ClosedWriteOwned(w: World, c: nat, a: nat)
    requires Owned(w, None) && a < |w.place| && c in w.closed && c !in w.pool.available
    ensures Owned(WriteTo(w, c, a), None)
  {
    var next := WriteTo(w, c, a);
    forall d: nat | Slot(d, true) in w.pool.slots ensures OneOwner(next, d, None) {
      assert OneOwner(w, d, None);
    }
    forall d: nat | Slot(d, false) in w.pool.slots ensures NoOwner(next, d) {
      assert NoOwner(w, d);
    }
  }

  /** After a response is complete its connection is in hand. */
  lemma DetachedOwned(w: World, c: nat)
    requires Owned(w, None) && c in w.busy && c !in w.closed
    ensures Owned(w.(busy := w.busy - {c}, answers := w.answers + [(c, w.busy[c])]), Some(c))
  {
    var next := w.(busy := w.busy - {c}, answers := w.answers + [(c, w.busy[c])]);
    assert NoOwner(w, c) || OneOwner(w, c, None);
    forall d: nat | Slot(d, true) in w.pool.slots ensures OneOwner(next, d, Some(c)) {
      assert OneOwner(w, d, None);
    }
    forall d: nat | Slot(d, false) in w.pool.slots ensures NoOwner(next, d) {
      assert NoOwner(w, d);
    }
  }

  lemma LastAnswerOwned(w: World, c: nat)
    requires Owned(w, None) && c in w.busy
    ensures Owned(DoLastAnswer(w, c), None)
  {
    if c in w.closed {
      ClosedDetachedOwned(w, c);
    } else {
      LiveLastAnswerOwned(w, c);
    }
  }

  lemma LiveLastAnswerOwned(w: World, c: nat)
    requires Owned(w, None) && c in w.busy && c !in w.closed
    ensures Owned(DoLastAnswer(w, c), None)
  {
    var next := DoLastAnswer(w, c);
    DetachedOwned(w, c);
    var w1 := w.(busy := w.busy - {c}, answers := w.answers + [(c, w.busy[c])]);
    forall d: nat | Slot(d, true) in w.pool.slots ensures OneOwner(next, d, None) {
      assert OneOwner(w1, d, Some(c));
    }
    forall d: nat | Slot(d, false) in w.pool.slots ensures NoOwner(next, d) {
      assert NoOwner(w1, d);
      SlotIsOne(w, c);
    }
  }

  /** The connection is on its way: closing it now finds no future to erase. */
  predicate Unmade(w: World, c: nat) {
    Slot(c, false) in w.pool.slots
  }

  /** A live connection has one future, which is done once the connection is made. */
  lemma LiveMatches(w: World, c: nat)
    requires Owned(w, None) && c < w.conns && c !in w.closed
    ensures MatchCount(w.pool.slots, c) == if Unmade(w, c) then 0 else 1
  {
    hide OneOwner;
    hide NoOwner;
    MatchesOnceIffDone(w.pool.slots, c);
    SlotIsOne(w, c);
  }

  lemma CloseOwned(w: World, c: nat)
    requires Owned(w, None) && c < w.conns
    ensures Owned(DoClose(w, c), None) && DoClose(w, c).clash == w.clash
    ensures c !in w.closed ==> MatchCount(w.pool.slots, c) == if Unmade(w, c) then 0 else 1
    ensures DoClose(w, c).badErase == (w.badErase || Unmade(w, c))
  {
    hide Owned;
    hide MatchCount;
    if c !in w.closed {
      LiveMatches(w, c);
      if Unmade(w, c) {
        SameOwners(w, w.(badErase := true), None);
      } else {
        CloseLiveOwned(w, c);
      }
    } else {
      ClosedIsMade(w, c);
    }
  }

  lemma ClosedIsMade(w: World, c: nat)
    requires Owned(w, None) && c in w.closed
    ensures !Unmade(w, c)
  {
    hide OneOwner;
    hide NoOwner;
  }

  lemma CloseLiveOwned(w: World, c: nat)
    requires Owned(w, None) && c < w.conns && !Unmade(w, c) && c !in w.closed
    requires MatchCount(w.pool.slots, c) == 1
    ensures Owned(DoClose(w, c), None)
  {
    RemovedOwned(w, c);
    hide Owned;
    hide Kept;
    hide MatchCount;
    var closed := w.closed + {c};
    var w0 := w.(closed := closed, closing := w.closing - {c}, pool := w.pool.(slots := Kept(w.pool.slots, c)));
    var n := DropStaleSuffix(w.pool.available, closed);
    hide DropStale;
    DroppedOwned(w0, n);
    var w1 := w0.(pool := w0.pool.(available := w.pool.available[n..]));
    assert w1.pool == Removed(w.pool, closed, c);
    OpenOwned(w1, w1.opening);
    assert DoClose(w, c) == w1 || DoClose(w, c) == OpenOne(w1).(opening := w1.opening);
  }

  lemma RemovedOwned(w: World, c: nat)
    requires Owned(w, None) && c < w.conns && !Unmade(w, c) && c !in w.closed
    ensures Owned(w.(closed := w.closed + {c}, closing := w.closing - {c},
                     pool := w.pool.(slots := Kept(w.pool.slots, c))), None)
  {
    var next := w.(closed := w.closed + {c}, closing := w.closing - {c},
                   pool := w.pool.(slots := Kept(w.pool.slots, c)));
    MatchesOnceIffDone(w.pool.slots, c);
    KeptCounts(w.pool.slots, c);
    forall d: nat | Slot(d, true) in next.pool.slots ensures OneOwner(next, d, None) {
      assert OneOwner(w, d, None);
    }
    forall d: nat | Slot(d, false) in next.pool.slots ensures NoOwner(next, d) {
      assert NoOwner(w, d);
    }
  }

  lemma OwnedKept(w: World, s: Step)
    requires Inv(w) && Sane(w) && Enabled(w, s)
    ensures Owned(Do(w, s), None) && !Do(w, s).clash
  {
    hide Owned;
    hide Limits;
    hide Placed;
    hide Ordered;
    match s {
      case Next => NextOwned(w);
      case Connected(c) => ConnectedOwned(w, c);
      case Answered(c) => AnsweredOwned(w, c);
      case LastAnswer(c) => LastAnswerOwned(w, c);
      case Close(c) => CloseOwned(w, c);
    }
  }

  // ---- Limits. ----

  lemma LimitsKept(w: World, s: Step)
    requires Owned(w, None) && Limits(w) && Sane(w) && Enabled(w, s)
    ensures Limits(Do(w, s))
  {
    hide Owned;
    hide DoNext;
    hide DoConnected;
    hide DoAnswered;
    hide DoClose;
    match s {
      case Next => NextLimits(w);
      case Connected(c) => ConnectedLimits(w, c);
      case Answered(c) => AnsweredLimits(w, c);
      case LastAnswer(c) =>
      case Close(c) => CloseLimits(w, c);
    }
  }

  lemma GiveBackLimits(w: World, c: nat)
    requires Limits(w) && forall a <- w.pool.waiting :: a < |w.place|
    ensures Limits(GiveBack(w, c))
  {
  }

  lemma ConnectedLimits(w: World, c: nat)
    requires Limits(w) && Sane(w)
    ensures Limits(DoConnected(w, c))
  {
    MarkDoneKeeps(w.pool.slots, c);
    hide MarkDone;
    hide GiveBack;
    if c !in w.opening {
      GiveBackLimits(w.(pool := w.pool.(slots := MarkDone(w.pool.slots, c))), c);
    }
  }

  lemma AnsweredLimits(w: World, c: nat)
    requires Limits(w) && Sane(w) && c in w.busy
    ensures Limits(DoAnswered(w, c))
  {
    hide GiveBack;
    GiveBackLimits(w.(busy := w.busy - {c}, answers := w.answers + [(c, w.busy[c])]), c);
  }

  lemma NextLimits(w: World)
    requires Limits(w)
    ensures Limits(DoNext(w))
  {
    DropNothing(w.closed);
    hide DropStale;
    match Choose(w.pool, w.closed) {
      case Idle(_, _) => assert w.pool.waiting == [];
      case Open => assert w.pool.waiting == [];
      case Wait =>
    }
  }

  lemma DropNothing(stale: set<nat>)
    ensures DropStale([], stale) == []
  {
  }

  lemma CloseLimits(w: World, c: nat)
    requires Limits(w)
    ensures Limits(DoClose(w, c))
  {
    hide Kept;
    hide MatchCount;
    hide DropStale;
    if c !in w.closed && MatchCount(w.pool.slots, c) == 1 {
      KeptCounts(w.pool.slots, c);
      DropNothing(w.closed + {c});
      if w.pool.waiting != [] {
        assert w.pool.available == [];
      }
    }
  }

  // ---- Attempts. ----

  /** The places when the attempt `a` is in none of them yet. */
  ghost predicate PlacedBut(w: World, a: nat) {
    && NoDuplicates(w.pool.waiting) && a !in w.pool.waiting && a < |w.place|
    && (forall b <- w.pool.waiting :: b < |w.place| && w.place[b] == Waiting)
    && (forall c <- w.opening :: w.opening[c] < |w.place| && w.opening[c] != a && w.place[w.opening[c]] == Opening(c))
    && (forall p <- w.writes :: p.1 < |w.place| && p.1 != a && w.place[p.1] == Written(p.0))
    && (forall i, j | 0 <= i < j < |w.writes| :: w.writes[i].1 != w.writes[j].1)
    && (forall b: nat | b < |w.place| && b != a :: Found(w, b))
  }

  lemma WriteToPlaced(w: World, c: nat, a: nat)
    requires PlacedBut(w, a)
    ensures Placed(WriteTo(w, c, a))
  {
    var next := WriteTo(w, c, a);
    assert next.writes[|w.writes|] == (c, a);
    forall b: nat | b < |next.place| ensures Found(next, b) {
      if b == a {
        assert (c, a) in next.writes;
      } else {
        assert Found(w, b);
      }
    }
    forall i, j | 0 <= i < j < |next.writes| ensures next.writes[i].1 != next.writes[j].1 {
      assert next.writes[i] in w.writes;
    }
  }

  lemma GiveBackPlaced(w: World, c: nat)
    requires Placed(w) && Sane(w)
    ensures Placed(GiveBack(w, c))
  {
    if w.pool.waiting != [] {
      var a := w.pool.waiting[0];
      assert a in w.pool.waiting;
      var w1 := w.(pool := w.pool.(waiting := w.pool.waiting[1..]), served := w.served + [a]);
      assert w.pool.waiting == [a] + w1.pool.waiting;
      forall b <- w1.pool.waiting ensures b != a {
        var i :| 0 <= i < |w1.pool.waiting| && w1.pool.waiting[i] == b;
        assert w.pool.waiting[i + 1] == b;
      }
      forall b: nat | b < |w.place| && b != a ensures Found(w1, b) {
        assert Found(w, b);
      }
      SuffixNoDuplicates(w.pool.waiting, 1);
      WriteToPlaced(w1, c, a);
    } else {
      SamePlaces(w, GiveBack(w, c));
    }
  }

  lemma SamePlaces(w: World, v: World)
    requires Placed(w)
    requires v.pool.waiting == w.pool.waiting && v.opening == w.opening && v.writes == w.writes && v.place == w.place
    ensures Placed(v)
  {
    forall a: nat | a < |w.place| ensures Found(v, a) {
      assert Found(w, a);
    }
  }

  lemma NextPlaced(w: World)
    requires Placed(w) && w.conns !in w.opening
    ensures Placed(DoNext(w))
  {
    var a := |w.place|;
    match Choose(w.pool, w.closed) {
      case Idle(c, rest) =>
        var w1 := w.(pool := w.pool.(available := rest), place := w.place + [Waiting]);
        forall b: nat | b < |w1.place| && b != a ensures Found(w1, b) {
          assert Found(w, b);
        }
        WriteToPlaced(w1, c, a);
      case Open => OpenPlaced(w);
      case Wait => WaitPlaced(w);
    }
  }

  lemma OpenPlaced(w: World)
    requires Placed(w) && w.conns !in w.opening && Choose(w.pool, w.closed) == Open
    ensures Placed(DoNext(w))
  {
    var next := DoNext(w);
    forall b: nat | b < |next.place| ensures Found(next, b) {
      assert b < |w.place| ==> Found(w, b);
    }
  }

  lemma WaitPlaced(w: World)
    requires Placed(w) && Choose(w.pool, w.closed) == Wait
    ensures Placed(DoNext(w))
  {
    var a, next := |w.place|, DoNext(w);
    assert next.pool.waiting == w.pool.waiting + [a];
    forall b: nat | b < |next.place| ensures Found(next, b) {
      assert b < a ==> Found(w, b);
      assert next.pool.waiting[|w.pool.waiting|] == a;
    }
    forall i, j | 0 <= i < j < |next.pool.waiting| ensures next.pool.waiting[i] != next.pool.waiting[j] {
      assert w.pool.waiting[i] in w.pool.waiting;
    }
  }

  lemma ConnectedPlaced(w: World, c: nat)
    requires Placed(w) && Sane(w)
    ensures Placed(DoConnected(w, c))
  {
    var w1 := w.(pool := w.pool.(slots := MarkDone(w.pool.slots, c)));
    if c in w.opening {
      var a := w.opening[c];
      var w2 := w1.(opening := w.opening - {c});
      forall b: nat | b < |w.place| && b != a ensures Found(w2, b) {
        assert Found(w, b);
      }
      WriteToPlaced(w2, c, a);
    } else {
      SamePlaces(w, w1);
      GiveBackPlaced(w1, c);
    }
  }

  lemma PlacedKept(w: World, s: Step)
    requires Owned(w, None) && Placed(w) && Sane(w) && Enabled(w, s)
    ensures Placed(Do(w, s))
  {
    hide Placed;
    hide Owned;
    hide DoNext;
    hide DoConnected;
    match s {
      case Next =>
        OpeningBelow(w);
        NextPlaced(w);
      case Connected(c) => ConnectedPlaced(w, c);
      case Answered(c) => AnsweredPlaced(w, c);
      case LastAnswer(c) => SamePlaces(w, DoLastAnswer(w, c));
      case Close(c) => ClosePlaced(w, c);
    }
  }

  lemma AnsweredPlaced(w: World, c: nat)
    requires Placed(w) && Sane(w) && c in w.busy
    ensures Placed(DoAnswered(w, c))
  {
    hide Placed;
    hide GiveBack;
    var w1 := w.(busy := w.busy - {c}, answers := w.answers + [(c, w.busy[c])]);
    SamePlaces(w, w1);
    GiveBackPlaced(w1, c);
  }

  lemma ClosePlaced(w: World, c: nat)
    requires Placed(w)
    ensures Placed(DoClose(w, c))
  {
    hide Placed;
    hide DoClose;
    CloseLeaves(w, c);
    SamePlaces(w, DoClose(w, c));
  }

  /** Attempts, their order and their history stay as they are. */
  predicate SameAttempts(w: World, v: World) {
    && v.pool.waiting == w.pool.waiting && v.opening == w.opening && v.busy == w.busy
    && v.place == w.place && v.writes == w.writes && v.answers == w.answers
    && v.queued == w.queued && v.served == w.served
  }

  lemma LeavingLeaves(w: World, c: nat)
    ensures SameAttempts(w, Leaving(w, c))
  {
    hide DropStale;
    hide Kept;
  }

  /** What a close has nothing to do with. */
  lemma CloseLeaves(w: World, c: nat)
    ensures SameAttempts(w, DoClose(w, c))
  {
    hide MatchCount;
    hide CanOpen;
    LeavingLeaves(w, c);
    hide Leaving;
  }

  lemma OpeningBelow(w: World)
    requires Owned(w, None)
    ensures w.conns !in w.opening
  {
    assert forall c <- w.opening :: Slot(c, false) in w.pool.slots && Slot(c, false).conn < w.conns;
  }

  // ---- Order. ----

  lemma OnConnAppend(log: seq<(nat, nat)>, c: nat, a: nat, d: nat)
    ensures OnConn(log + [(c, a)], d) == OnConn(log, d) + if c == d then [a] else []
  {
    assert (log + [(c, a)])[..|log|] == log;
  }

  lemma WriteToOrdered(w: World, c: nat, a: nat)
    requires Ordered(w) && c !in w.busy && a < |w.place|
    ensures Ordered(WriteTo(w, c, a))
  {
    hide OnConn;
    var next := WriteTo(w, c, a);
    forall d: nat ensures OnConn(next.writes, d) == OnConn(next.answers, d) + Current(next.busy, d) {
      OnConnAppend(w.writes, c, a, d);
      assert OnConn(w.writes, d) == OnConn(w.answers, d) + Current(w.busy, d);
    }
  }

  lemma DetachOrdered(w: World, c: nat)
    requires Ordered(w) && c in w.busy
    ensures Ordered(w.(busy := w.busy - {c}, answers := w.answers + [(c, w.busy[c])]))
  {
    hide OnConn;
    var next := w.(busy := w.busy - {c}, answers := w.answers + [(c, w.busy[c])]);
    forall d: nat ensures OnConn(next.writes, d) == OnConn(next.answers, d) + Current(next.busy, d) {
      OnConnAppend(w.answers, c, w.busy[c], d);
      assert OnConn(w.writes, d) == OnConn(w.answers, d) + Current(w.busy, d);
    }
  }

  lemma SameOrder(w: World, v: World)
    requires Ordered(w)
    requires v.queued == v.served + v.pool.waiting
    requires v.writes == w.writes && v.answers == w.answers && v.busy == w.busy
    ensures Ordered(v)
  {
    forall d: nat ensures OnConn(v.writes, d) == OnConn(v.answers, d) + Current(v.busy, d) {
      assert OnConn(w.writes, d) == OnConn(w.answers, d) + Current(w.busy, d);
    }
  }

  lemma GiveBackOrdered(w: World, c: nat)
    requires Ordered(w) && Sane(w) && c !in w.busy
    ensures Ordered(GiveBack(w, c))
  {
    if w.pool.waiting == [] {
      SameOrder(w, GiveBack(w, c));
    } else {
      var a := w.pool.waiting[0];
      assert a in w.pool.waiting;
      var w1 := w.(pool := w.pool.(waiting := w.pool.waiting[1..]), served := w.served + [a]);
      assert w.pool.waiting == [a] + w1.pool.waiting;
      SameOrder(w, w1);
      WriteToOrdered(w1, c, a);
    }
  }

  lemma OrderedKept(w: World, s: Step)
    requires Owned(w, None) && Ordered(w) && Sane(w) && Enabled(w, s)
    ensures Ordered(Do(w, s))
  {
    hide Ordered;
    match s {
      case Next => NextOrdered(w);
      case Connected(c) =>
        assert NoOwner(w, c);
        ConnectedOrdered(w, c);
      case Answered(c) =>
        DetachOrdered(w, c);
        GiveBackOrdered(w.(busy := w.busy - {c}, answers := w.answers + [(c, w.busy[c])]), c);
      case LastAnswer(c) =>
        DetachOrdered(w, c);
        LastAnswerOrdered(w, c);
      case Close(c) =>
        CloseOrdered(w, c);
    }
  }

  lemma NextOrdered(w: World)
    requires Owned(w, None) && Ordered(w)
    ensures Ordered(DoNext(w))
  {
    var a := |w.place|;
    match Choose(w.pool, w.closed) {
      case Idle(c, rest) =>
        var n := DropStaleSuffix(w.pool.available, w.closed);
        IdleOwned(w, n);
        var w1 := w.(pool := w.pool.(available := rest), place := w.place + [Waiting]);
        SameOwners(w.(pool := w.pool.(available := rest)), w1, Some(c));
        WriteToOwned(w1, c, a);
        SameOrder(w, w1);
        WriteToOrdered(w1, c, a);
      case Open => SameOrder(w, DoNext(w));
      case Wait => SameOrder(w, DoNext(w));
    }
  }

  lemma ConnectedOrdered(w: World, c: nat)
    requires Ordered(w) && Sane(w) && c !in w.busy
    ensures Ordered(DoConnected(w, c))
  {
    var w1 := w.(pool := w.pool.(slots := MarkDone(w.pool.slots, c)));
    SameOrder(w, w1);
    if c in w.opening {
      var w2 := w1.(opening := w.opening - {c});
      SameOrder(w1, w2);
      WriteToOrdered(w2, c, w.opening[c]);
    } else {
      GiveBackOrdered(w1, c);
    }
  }

  lemma LastAnswerOrdered(w: World, c: nat)
    requires c in w.busy
    requires Ordered(w.(busy := w.busy - {c}, answers := w.answers + [(c, w.busy[c])]))
    ensures Ordered(DoLastAnswer(w, c))
  {
    SameOrder(w.(busy := w.busy - {c}, answers := w.answers + [(c, w.busy[c])]), DoLastAnswer(w, c));
  }

  lemma CloseOrdered(w: World, c: nat)
    requires Ordered(w)
    ensures Ordered(DoClose(w, c))
  {
    hide DoClose;
    CloseLeaves(w, c);
    assert w.queued == w.served + w.pool.waiting;
    hide Ordered;
    SameOrder(w, DoClose(w, c));
  }

  // ---- Every run. ----

  /** Each step keeps the invariant, so every step after it is defined. */
  lemma InvKept(w: World, s: Step)
    requires Inv(w) && Sane(w) && Enabled(w, s)
    ensures Inv(Do(w, s)) && Sane(Do(w, s))
  {
    hide Owned;
    hide Limits;
    hide Placed;
    hide Ordered;
    OwnedKept(w, s);
    LimitsKept(w, s);
    PlacedKept(w, s);
    OrderedKept(w, s);
    PlacedSane(Do(w, s));
  }

  /** A run: each step is enabled when it is made. */
  ghost predicate Possible(w: World, steps: seq<Step>)
    requires Inv(w) && Sane(w)
    decreases |steps|
  {
    steps == [] || (Enabled(w, steps[0]) && (InvKept(w, steps[0]); Possible(Do(w, steps[0]), steps[1..])))
  }

  ghost function Run(w: World, steps: seq<Step>): World
    requires Inv(w) && Sane(w) && Possible(w, steps)
    decreases |steps|
  {
    if steps == [] then w else InvKept(w, steps[0]); Run(Do(w, steps[0]), steps[1..])
  }

  lemma StartInv(limit: bool, max: nat)
    ensures Inv(Start(limit, max)) && Sane(Start(limit, max))
  {
    var w := Start(limit, max);
    assert forall c: nat :: OnConn(w.writes, c) == [] == OnConn(w.answers, c) + Current(w.busy, c);
  }

  /** Every reachable state satisfies the invariant. */
  lemma {:induction false} EveryRunInv(w: World, steps: seq<Step>)
    requires Inv(w) && Sane(w) && Possible(w, steps)
    ensures Inv(Run(w, steps)) && Sane(Run(w, steps))
    decreases |steps|
  {
    hide Inv;
    hide Do;
    if steps != [] {
      InvKept(w, steps[0]);
      EveryRunInv(Do(w, steps[0]), steps[1..]);
    }
  }

  /** Settings stay, and no step takes back what was written, served or begun. */
  predicate Grows(w: World, v: World) {
    && v.pool.limit == w.pool.limit && v.pool.max == w.pool.max
    && w.writes <= v.writes && |v.writes| <= |w.writes| + 1
    && w.served <= v.served && |w.place| <= |v.place|
  }

  lemma GiveBackGrows(w: World, c: nat)
    requires forall a <- w.pool.waiting :: a < |w.place|
    ensures Grows(w, GiveBack(w, c)) && |GiveBack(w, c).place| == |w.place|
  {
    assert w.pool.waiting != [] ==> w.pool.waiting[0] in w.pool.waiting;
  }

  lemma NextGrows(w: World)
    ensures Grows(w, DoNext(w)) && |DoNext(w).place| == |w.place| + 1
  {
    hide DropStale;
  }

  lemma ConnectedGrows(w: World, c: nat)
    requires Sane(w)
    ensures Grows(w, DoConnected(w, c)) && |DoConnected(w, c).place| == |w.place|
  {
    hide MarkDone;
    hide GiveBack;
    if c !in w.opening {
      GiveBackGrows(w.(pool := w.pool.(slots := MarkDone(w.pool.slots, c))), c);
    }
  }

  lemma AnsweredGrows(w: World, c: nat)
    requires Sane(w) && c in w.busy
    ensures Grows(w, DoAnswered(w, c)) && |DoAnswered(w, c).place| == |w.place|
  {
    hide GiveBack;
    GiveBackGrows(w.(busy := w.busy - {c}, answers := w.answers + [(c, w.busy[c])]), c);
  }

  lemma CloseGrows(w: World, c: nat)
    ensures Grows(w, DoClose(w, c)) && |DoClose(w, c).place| == |w.place|
  {
    LeavingGrows(w, c);
    OpenGrows(w, Leaving(w, c));
    assert Grows(w, w) && Grows(w, w.(badErase := true));
    hide MatchCount;
    hide CanOpen;
    hide Leaving;
    hide OpenOne;
    hide Grows;
  }

  lemma OpenGrows(w: World, v: World)
    requires Grows(w, v)
    ensures Grows(w, OpenOne(v)) && OpenOne(v).place == v.place
  {
  }

  lemma LeavingGrows(w: World, c: nat)
    ensures Grows(w, Leaving(w, c)) && Leaving(w, c).place == w.place
  {
    hide DropStale;
    hide Kept;
  }

  lemma StepGrows(w: World, s: Step)
    requires Sane(w) && Enabled(w, s)
    ensures Grows(w, Do(w, s)) && |Do(w, s).place| == |w.place| + if s.Next? then 1 else 0
  {
    hide DoNext;
    hide DoConnected;
    hide DoAnswered;
    hide DoClose;
    match s {
      case Next => NextGrows(w);
      case Connected(c) => ConnectedGrows(w, c);
      case Answered(c) => AnsweredGrows(w, c);
      case LastAnswer(_) =>
      case Close(c) => CloseGrows(w, c);
    }
  }

  lemma {:induction false} RunKeepsSettings(w: World, steps: seq<Step>)
    requires Inv(w) && Sane(w) && Possible(w, steps)
    ensures Run(w, steps).pool.limit == w.pool.limit && Run(w, steps).pool.max == w.pool.max
    decreases |steps|
  {
    hide Inv;
    hide Do;
    if steps != [] {
      InvKept(w, steps[0]);
      StepGrows(w, steps[0]);
      RunKeepsSettings(Do(w, steps[0]), steps[1..]);
    }
  }

  /** A live connection is on its way, idle once, held by one attempt, or about to close. */
  predicate Belongs(w: World, c: nat) {
    if Slot(c, true) in w.pool.slots then OneOwner(w, c, None)
    else Slot(c, false) in w.pool.slots && NoOwner(w, c)
  }

  /** The step closes a connection that never came up. */
  predicate ClosesUnmade(w: World, s: Step) {
    s.Close? && Unmade(w, s.conn)
  }

  lemma BadEraseStep(w: World, s: Step)
    requires Inv(w) && Sane(w) && Enabled(w, s)
    ensures Do(w, s).badErase <==> ClosesUnmade(w, s)
  {
    hide DropStale;
    hide Kept;
    hide MatchCount;
    hide MarkDone;
    hide Removed;
    match s {
      case Close(c) => CloseOwned(w, c);
      case _ =>
    }
  }

  /** The step releases a closed connection while a request waits. */
  predicate ReleasesClosed(w: World, s: Step) {
    s.Answered? && s.conn in w.closed && w.pool.waiting != []
  }

  lemma StaleStep(w: World, s: Step)
    requires Inv(w) && Sane(w) && Enabled(w, s)
    ensures Do(w, s).stale <==> w.stale || ReleasesClosed(w, s)
  {
    hide DropStale;
    hide Kept;
    hide MatchCount;
    hide MarkDone;
    hide Removed;
    match s {
      case Next => var n := DropStaleSuffix(w.pool.available, w.closed);
      case Connected(c) => assert Slot(c, false).conn !in w.closed;
      case _ =>
    }
  }

  ghost predicate SomeClosedReleased(w: World, steps: seq<Step>)
    requires Inv(w) && Sane(w) && Possible(w, steps)
    decreases |steps|
  {
    steps != [] &&
    (ReleasesClosed(w, steps[0]) || (InvKept(w, steps[0]); SomeClosedReleased(Do(w, steps[0]), steps[1..])))
  }

  /**
   * A request is written to a closed connection on exactly the runs where a response is completed
   * after its connection was closed, while a request waits.
   */
  lemma {:induction false} StaleIff(w: World, steps: seq<Step>)
    requires Inv(w) && Sane(w) && Possible(w, steps)
    ensures Run(w, steps).stale <==> w.stale || SomeClosedReleased(w, steps)
    decreases |steps|
  {
    hide Inv;
    hide Do;
    hide ReleasesClosed;
    if steps != [] {
      InvKept(w, steps[0]);
      StaleStep(w, steps[0]);
      StaleIff(Do(w, steps[0]), steps[1..]);
    }
  }

  /** Some connection is closed in the run before it was made. */
  ghost predicate SomeUnmadeClosed(w: World, steps: seq<Step>)
    requires Inv(w) && Sane(w) && Possible(w, steps)
    decreases |steps|
  {
    steps != [] &&
    (ClosesUnmade(w, steps[0]) || (InvKept(w, steps[0]); SomeUnmadeClosed(Do(w, steps[0]), steps[1..])))
  }

  /** A removal finds no future to erase on exactly the runs where a connection fails to come up. */
  lemma {:induction false} BadEraseIff(w: World, steps: seq<Step>)
    requires Inv(w) && Sane(w) && Possible(w, steps) && !w.badErase
    ensures Run(w, steps).badErase <==> SomeUnmadeClosed(w, steps)
    decreases |steps|
  {
    hide Inv;
    hide Do;
    hide ClosesUnmade;
    if steps != [] {
      var next := Do(w, steps[0]);
      InvKept(w, steps[0]);
      BadEraseStep(w, steps[0]);
      if next.badErase {
        assert steps[1..] == [];
      } else {
        BadEraseIff(next, steps[1..]);
      }
    }
  }

  /**
   * What holds on every run, from a new pool or any later state: no request is written over a
   * current response, or to a closed connection unless one is released while a request waits,
   * every removal finds exactly one future if no connection is closed before it was made, live
   * connections have one owner each, no more connections exist than allowed, no request waits
   * while a slot is free or a connection is idle, queued requests are served in order, and each
   * connection settles the requests written to it in order.
   */
  lemma EveryRunSafe(w: World, steps: seq<Step>)
    requires Inv(w) && Sane(w) && Possible(w, steps) && !w.badErase && !w.stale
    ensures var end, max := Run(w, steps), w.pool.max;
            && !end.clash && (end.stale <==> SomeClosedReleased(w, steps))
            && (end.badErase <==> SomeUnmadeClosed(w, steps))
            && (forall c: nat | c < end.conns && c !in end.closed :: Belongs(end, c))
            && (w.pool.limit ==> |end.pool.slots| <= max)
            && (end.pool.waiting != [] ==> w.pool.limit && end.pool.available == [] && |end.pool.slots| == max)
            && end.queued == end.served + end.pool.waiting
            && (forall c: nat :: OnConn(end.writes, c) == OnConn(end.answers, c) + Current(end.busy, c))
  {
    hide Run;
    hide Possible;
    hide OnConn;
    hide SomeUnmadeClosed;
    hide SomeClosedReleased;
    EveryRunInv(w, steps);
    BadEraseIff(w, steps);
    StaleIff(w, steps);
    RunKeepsSettings(w, steps);
    var end := Run(w, steps);
    forall c: nat | c < end.conns && c !in end.closed ensures Belongs(end, c) {
      assert Slot(c, true) in end.pool.slots ==> OneOwner(end, c, None);
      assert Slot(c, false) in end.pool.slots ==> NoOwner(end, c);
    }
  }

  // ---- First come, first served. ----

  /** The steps that call `release`. */
  predicate IsRelease(w: World, s: Step) {
    s.Answered? || (s.Connected? && s.conn !in w.opening)
  }

  ghost function ReleaseCount(w: World, steps: seq<Step>): nat
    requires Inv(w) && Sane(w) && Possible(w, steps)
    decreases |steps|
  {
    if steps == [] then 0
    else
      InvKept(w, steps[0]);
      (if IsRelease(w, steps[0]) then 1 else 0) + ReleaseCount(Do(w, steps[0]), steps[1..])
  }

  /** While a request waits, a new one queues up behind it and nothing is written for it. */
  lemma NoOvertaking(w: World)
    requires Inv(w) && w.pool.waiting != []
    ensures DoNext(w).pool.waiting == w.pool.waiting + [|w.place|]
    ensures DoNext(w).writes == w.writes && DoNext(w).pool.slots == w.pool.slots
  {
  }

  /** A release serves the request that has waited longest, on the released connection. */
  lemma ReleaseServesFirst(w: World, s: Step)
    requires Sane(w) && Enabled(w, s) && IsRelease(w, s) && w.pool.waiting != []
    ensures var next := Do(w, s);
            && next.pool.waiting == w.pool.waiting[1..]
            && next.served == w.served + [w.pool.waiting[0]]
            && next.writes == w.writes + [(s.conn, w.pool.waiting[0])]
  {
  }

  /** Nothing else takes a request out of the queue. */
  lemma OthersKeepQueue(w: World, s: Step)
    requires Sane(w) && Enabled(w, s) && !IsRelease(w, s)
    ensures w.pool.waiting <= Do(w, s).pool.waiting && Do(w, s).served == w.served
  {
    hide DropStale;
    hide Kept;
    hide MatchCount;
    hide MarkDone;
    hide GiveBack;
    match s {
      case Next =>
      case Connected(_) =>
      case Answered(_) =>
      case LastAnswer(_) =>
      case Close(_) =>
    }
  }

  /**
   * The request at position `p` is served by exactly the (p+1)-th release: after fewer it is
   * still waiting, that many places further ahead, and after more it is the p-th served.
   */
  lemma {:induction false} ServedInTurn(w: World, steps: seq<Step>, p: nat)
    requires Inv(w) && Sane(w) && Possible(w, steps) && p < |w.pool.waiting|
    ensures var n, end := ReleaseCount(w, steps), Run(w, steps);
            && w.served <= end.served
            && (n <= p ==>
                  |end.served| == |w.served| + n &&
                  p - n < |end.pool.waiting| && end.pool.waiting[p - n] == w.pool.waiting[p])
            && (n > p ==> |end.served| > |w.served| + p && end.served[|w.served| + p] == w.pool.waiting[p])
    decreases |steps|
  {
    hide Inv;
    hide Do;
    if steps != [] {
      var s, next := steps[0], Do(w, steps[0]);
      InvKept(w, s);
      if IsRelease(w, s) {
        ReleaseServesFirst(w, s);
        if p > 0 {
          ServedInTurn(next, steps[1..], p - 1);
        } else {
          ServedGrows(next, steps[1..]);
        }
      } else {
        OthersKeepQueue(w, s);
        ServedInTurn(next, steps[1..], p);
      }
    }
  }

  lemma {:induction false} ServedGrows(w: World, steps: seq<Step>)
    requires Inv(w) && Sane(w) && Possible(w, steps)
    ensures w.served <= Run(w, steps).served
    decreases |steps|
  {
    hide Inv;
    hide Do;
    if steps != [] {
      InvKept(w, steps[0]);
      StepGrows(w, steps[0]);
      ServedGrows(Do(w, steps[0]), steps[1..]);
    }
  }

  /** Nobody waits in vain: some connection is on its way, at work, or about to be replaced. */
  lemma WaiterHasHope(w: World) returns (c: nat)
    requires Inv(w) && !w.badErase && w.pool.waiting != [] && w.pool.max >= 1
    ensures c !in w.closed
    ensures Enabled(w, Connected(c)) || Enabled(w, Answered(c)) || (c in w.closing && Enabled(w, Close(c)))
  {
    var s := w.pool.slots[0];
    c := s.conn;
    assert s in w.pool.slots;
    assert s == Slot(c, s.done);
    if s.done {
      assert OneOwner(w, c, None);
      SlotIsOne(w, c);
    }
  }

  // ---- Counting connections. ----

  ghost function Conns(slots: seq<Slot<nat>>, done: bool): set<nat> {
    set s | s in slots && s.done == done :: s.conn
  }

  ghost function IdleConns(w: World): set<nat> {
    set c | c in w.pool.available && c !in w.closed
  }

  ghost function HeldConns(w: World): set<nat> {
    set c | c in w.busy && c !in w.closed
  }

  /** Connections on their way, idle, at work and about to close make up all the slots. */
  lemma Conservation(w: World)
    requires Inv(w)
    ensures |w.pool.slots| ==
            |Conns(w.pool.slots, false)| + |IdleConns(w)| + |HeldConns(w)| + |w.closing|
  {
    var live := Conns(w.pool.slots, true);
    SlotsCounted(w.pool.slots);
    forall c: nat | c in live ensures OneOwner(w, c, None) && c !in w.closed {
      assert Slot(c, true) in w.pool.slots;
    }
    forall c: nat | c < w.conns && c !in w.closed && !NoOwner(w, c) ensures c in live {
      assert Slot(c, true) in w.pool.slots;
    }
    Partition(live, IdleConns(w), HeldConns(w), w.closing);
  }

  lemma Partition(all: set<nat>, a: set<nat>, b: set<nat>, c: set<nat>)
    requires a <= all && b <= all && c <= all
    requires forall x | x in all ::
               (x in a || x in b || x in c) && !(x in a && x in b) && !(x in a && x in c) && !(x in b && x in c)
    ensures |all| == |a| + |b| + |c|
  {
    assert all == (a + b) + c;
    assert |a + b| == |a| + |b| && |(a + b) + c| == |a + b| + |c|;
  }

  lemma {:induction false} SlotsCounted(slots: seq<Slot<nat>>)
    requires Distinct(slots)
    ensures |slots| == |Conns(slots, false)| + |Conns(slots, true)|
    decreases |slots|
  {
    hide Conns;
    if slots == [] {
      NoConns();
    } else {
      var s, rest := slots[0], slots[1..];
      assert slots == [s] + rest;
      DistinctTail(s, rest);
      SlotsCounted(rest);
      ConnsCons(s, rest, true);
      ConnsCons(s, rest, false);
    }
  }

  lemma NoConns()
    ensures Conns([], true) == {} && Conns([], false) == {}
  {
  }

  lemma DistinctTail(s: Slot<nat>, rest: seq<Slot<nat>>)
    requires Distinct([s] + rest)
    ensures Distinct(rest) && forall d: bool :: s.conn !in Conns(rest, d)
  {
    var slots := [s] + rest;
    forall t | t in rest ensures t.conn != s.conn {
      var i :| 0 <= i < |rest| && rest[i] == t;
      assert slots[0] == s && slots[i + 1] == t;
    }
    assert forall i | 0 <= i < |rest| :: rest[i] == slots[i + 1];
  }

  lemma ConnsCons(s: Slot<nat>, rest: seq<Slot<nat>>, done: bool)
    ensures Conns([s] + rest, done) == Conns(rest, done) + if s.done == done then {s.conn} else {}
  {
    var slots := [s] + rest;
    assert forall t :: t in slots <==> t == s || t in rest;
    assert s in slots;
  }

  /** A second close changes nothing. */
  lemma CloseOnce(w: World, c: nat)
    ensures DoClose(DoClose(w, c), c) == DoClose(w, c)
  {
    hide MatchCount;
    hide CanOpen;
    assert c in Leaving(w, c).closed;
    hide Leaving;
  }
}
