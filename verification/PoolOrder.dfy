/** The order in which idle connections are handed out, against a history of the steps alone. */
module PoolOrder {
  import opened Pool
  import opened PoolRuns

  // ---- The history. ----

  /** The connection that a step leaves idle: its work is done, or it is new, and nobody waits. */
  function FreedBy(w: World, s: Step): seq<nat> {
    match s
    case Answered(c) => if w.pool.waiting == [] then [c] else []
    case Connected(c) => if w.pool.waiting == [] && c !in w.opening then [c] else []
    case _ => []
  }

  /** The idle connection that a new request is written to at once. */
  function HandedBy(w: World, s: Step): seq<nat>
    requires Sane(w) && Enabled(w, s)
  {
    var next := Do(w, s);
    if s.Next? && |next.writes| > |w.writes| then [next.writes[|next.writes| - 1].0] else []
  }

  ghost function Freed(w: World, steps: seq<Step>): seq<nat>
    requires Inv(w) && Sane(w) && Possible(w, steps)
    decreases |steps|
  {
    if steps == [] then []
    else InvKept(w, steps[0]); FreedBy(w, steps[0]) + Freed(Do(w, steps[0]), steps[1..])
  }

  ghost function Handed(w: World, steps: seq<Step>): seq<nat>
    requires Inv(w) && Sane(w) && Possible(w, steps)
    decreases |steps|
  {
    if steps == [] then []
    else InvKept(w, steps[0]); HandedBy(w, steps[0]) + Handed(Do(w, steps[0]), steps[1..])
  }

  /** The connections of `queue` were handed out in that order, but for closed ones that were dropped. */
  ghost predicate InOrder(queue: seq<nat>, handed: seq<nat>, closed: set<nat>)
    decreases |queue|
  {
    if queue == [] then handed == []
    else
      || (handed != [] && handed[0] == queue[0] && InOrder(queue[1..], handed[1..], closed))
      || (queue[0] in closed && InOrder(queue[1..], handed, closed))
  }

  // ---- One step. ----

  lemma {:induction false} DroppedInOrder(queue: seq<nat>, closed: set<nat>)
    requires forall c <- queue :: c in closed
    ensures InOrder(queue, [], closed)
    decreases |queue|
  {
    if queue != [] {
      DroppedInOrder(queue[1..], closed);
    }
  }

  lemma {:induction false} InOrderAppend(
      a: seq<nat>, b: seq<nat>, handedA: seq<nat>, handedB: seq<nat>, closed: set<nat>, later: set<nat>)
    requires InOrder(a, handedA, closed) && InOrder(b, handedB, later) && closed <= later
    ensures InOrder(a + b, handedA + handedB, later)
    decreases |a|
  {
    if a == [] {
      assert a + b == b && handedA + handedB == handedB;
    } else {
      assert (a + b)[1..] == a[1..] + b;
      if handedA != [] && handedA[0] == a[0] && InOrder(a[1..], handedA[1..], closed) {
        assert (handedA + handedB)[1..] == handedA[1..] + handedB;
        InOrderAppend(a[1..], b, handedA[1..], handedB, closed, later);
      } else {
        InOrderAppend(a[1..], b, handedA, handedB, closed, later);
      }
    }
  }

  /** A step takes connections off the front of the queue only, and puts one at its back at most. */
  lemma StepInOrder(w: World, s: Step) returns (n: nat)
    requires Sane(w) && Enabled(w, s)
    ensures var queue, next := w.pool.available + FreedBy(w, s), Do(w, s);
            && n <= |queue| && next.pool.available == queue[n..]
            && InOrder(queue[..n], HandedBy(w, s), next.closed) && w.closed <= next.closed
  {
    hide InOrder;
    hide DoNext;
    hide DoClose;
    n := 0;
    assert w.pool.available + [] == w.pool.available;
    match s {
      case Next => n := NextInOrder(w);
      case Close(c) => n := CloseInOrder(w, c);
      case _ =>
        OthersInOrder(w, s);
        NothingInOrder(w.closed);
    }
  }

  lemma NothingInOrder(closed: set<nat>)
    ensures InOrder([], [], closed)
  {
  }

  lemma OthersInOrder(w: World, s: Step)
    requires Sane(w) && Enabled(w, s) && !s.Next? && !s.Close?
    ensures Do(w, s).pool.available == w.pool.available + FreedBy(w, s) && Do(w, s).closed == w.closed
  {
    hide GiveBack;
    assert w.pool.available + [] == w.pool.available;
    match s {
      case Connected(c) =>
        GivenBack(w.(pool := w.pool.(slots := MarkDone(w.pool.slots, c))), c);
        hide MarkDone;
      case Answered(c) =>
        GivenBack(w.(busy := w.busy - {c}, answers := w.answers + [(c, w.busy[c])]), c);
      case _ =>
    }
  }

  lemma GivenBack(w: World, c: nat)
    requires Sane(w)
    ensures var next := GiveBack(w, c);
            && next.pool.available == w.pool.available + (if w.pool.waiting == [] then [c] else [])
            && next.closed == w.closed
  {
  }

  lemma NextInOrder(w: World) returns (n: nat)
    requires Sane(w)
    ensures var next := DoNext(w);
            && n <= |w.pool.available| && next.pool.available == w.pool.available[n..] && next.closed == w.closed
            && var handed := if |next.writes| > |w.writes| then [next.writes[|next.writes| - 1].0] else [];
               InOrder(w.pool.available[..n], handed, w.closed)
  {
    hide InOrder;
    var available := w.pool.available;
    n := DropStaleSuffix(available, w.closed);
    hide DropStale;
    if n < |available| {
      FrontInOrder(available, w.closed, n);
      n := n + 1;
    } else {
      DroppedInOrder(available[..n], w.closed);
    }
  }

  lemma FrontInOrder(available: seq<nat>, closed: set<nat>, n: nat)
    requires n < |available| && forall i | 0 <= i < n :: available[i] in closed
    ensures InOrder(available[..n + 1], [available[n]], closed)
  {
    var c := available[n];
    DroppedInOrder(available[..n], closed);
    assert [c][1..] == [] && InOrder([c], [c], closed);
    InOrderAppend(available[..n], [c], [], [c], closed, closed);
    assert available[..n + 1] == available[..n] + [c] && [] + [c] == [c];
  }

  lemma CloseInOrder(w: World, c: nat) returns (n: nat)
    ensures var next := DoClose(w, c);
            && n <= |w.pool.available| && next.pool.available == w.pool.available[n..] && w.closed <= next.closed
            && InOrder(w.pool.available[..n], [], next.closed)
  {
    n := 0;
    if c !in w.closed && MatchCount(w.pool.slots, c) == 1 {
      n := DropStaleSuffix(w.pool.available, w.closed + {c});
      DroppedInOrder(w.pool.available[..n], w.closed + {c});
    }
  }

  // ---- Every run. ----

  /**
   * On every run the available queue holds, in order, the connections that became idle last;
   * those before them were handed out to requests in exactly the order in which they became
   * idle, but for connections that had been closed by then.
   */
  lemma {:induction false} IdleInOrder(w: World, steps: seq<Step>) returns (n: nat)
    requires Inv(w) && Sane(w) && Possible(w, steps)
    ensures var queue, end := w.pool.available + Freed(w, steps), Run(w, steps);
            && n <= |queue| && end.pool.available == queue[n..] && w.closed <= end.closed
            && InOrder(queue[..n], Handed(w, steps), end.closed)
    decreases |steps|
  {
    hide Inv;
    hide Sane;
    hide Do;
    hide FreedBy;
    hide HandedBy;
    n := 0;
    if steps == [] {
      assert w.pool.available + [] == w.pool.available;
    } else {
      var s, next := steps[0], Do(w, steps[0]);
      InvKept(w, s);
      var m := StepInOrder(w, s);
      var k := IdleInOrder(next, steps[1..]);
      n := m + k;
      hide Freed;
      hide Handed;
      hide InOrder;
      Chained(
        w.pool.available, FreedBy(w, s), m, HandedBy(w, s), next.closed,
        Freed(next, steps[1..]), k, Handed(next, steps[1..]), Run(next, steps[1..]).closed);
    }
  }

  /** The histories of a step and of the rest of the run, put together. */
  lemma Chained(
      available: seq<nat>, freed: seq<nat>, m: nat, handed: seq<nat>, closed: set<nat>,
      rest: seq<nat>, k: nat, later: seq<nat>, end: set<nat>)
    requires m <= |available + freed| && k <= |(available + freed)[m..] + rest|
    requires InOrder((available + freed)[..m], handed, closed) && closed <= end
    requires InOrder(((available + freed)[m..] + rest)[..k], later, end)
    ensures var all := available + (freed + rest);
            && m + k <= |all| && all[m + k..] == ((available + freed)[m..] + rest)[k..]
            && InOrder(all[..m + k], handed + later, end)
  {
    hide InOrder;
    var queue := available + freed;
    assert available + (freed + rest) == queue + rest;
    assert (queue + rest)[..m + k] == queue[..m] + (queue[m..] + rest)[..k];
    InOrderAppend(queue[..m], (queue[m..] + rest)[..k], handed, later, closed, end);
  }

  /**
   * A new request is written to the first idle connection that is not closed; only without one is
   * a connection opened for it, if there is room for one, and only without room does it wait.
   */
  lemma NextChoice(w: World)
    requires Sane(w)
    ensures var next, a := DoNext(w), |w.place|;
            if exists c <- w.pool.available :: c !in w.closed then
              && next.conns == w.conns && next.pool.waiting == w.pool.waiting
              && exists i: nat | i < |w.pool.available| ::
                   && next.writes == w.writes + [(w.pool.available[i], a)]
                   && w.pool.available[i] !in w.closed && forall j | 0 <= j < i :: w.pool.available[j] in w.closed
            else if !w.pool.limit || |w.pool.slots| < w.pool.max then
              && next.conns == w.conns + 1 && next.opening == w.opening[w.conns := a]
              && next.writes == w.writes && next.pool.waiting == w.pool.waiting
            else next.conns == w.conns && next.writes == w.writes && next.pool.waiting == w.pool.waiting + [a]
  {
    var i := DropStaleSuffix(w.pool.available, w.closed);
    hide DropStale;
    if i < |w.pool.available| {
      assert w.pool.available[i] in w.pool.available;
      assert DoNext(w).writes == w.writes + [(w.pool.available[i], |w.place|)];
    }
  }

  /**
   * A connection that was made serves the attempt it was opened for, whoever waits; one that
   * replaces another serves the longest waiting request, and is idle without one.
   */
  lemma ConnectedServes(w: World, c: nat)
    requires Sane(w)
    ensures var next := DoConnected(w, c);
            if c in w.opening then
              && next.writes == w.writes + [(c, w.opening[c])] && next.pool.waiting == w.pool.waiting
              && next.pool.available == w.pool.available && c !in next.opening
            else if w.pool.waiting != [] then
              && next.writes == w.writes + [(c, w.pool.waiting[0])] && next.pool.waiting == w.pool.waiting[1..]
              && next.pool.available == w.pool.available && next.opening == w.opening
            else
              && next.writes == w.writes && next.pool.waiting == [] && next.opening == w.opening
              && next.pool.available == w.pool.available + [c]
  {
    hide MarkDone;
  }

  /** What a removal leaves at the front of the available queue is open. */
  lemma CloseDrops(w: World, c: nat)
    requires Inv(w) && c < w.conns && c !in w.closed && Slot(c, false) !in w.pool.slots
    ensures var next := DoClose(w, c);
            && c in next.closed && next.closed == w.closed + {c}
            && (next.pool.available != [] ==> next.pool.available[0] !in next.closed)
  {
    LiveMatches(w, c);
    var n := DropStaleSuffix(w.pool.available, w.closed + {c});
    hide Inv;
    hide DropStale;
    hide MatchCount;
    hide Kept;
  }

  /** A closed connection is replaced only while a request waits and there is room. */
  lemma CloseReplaces(w: World, c: nat)
    requires Inv(w) && c < w.conns
    ensures DoClose(w, c).conns == w.conns +
            if c !in w.closed && Slot(c, false) !in w.pool.slots && w.pool.waiting != [] then 1 else 0
    ensures DoClose(w, c).pool.waiting == w.pool.waiting && DoClose(w, c).writes == w.writes
  {
    if c !in w.closed {
      LiveMatches(w, c);
      KeptLength(w.pool.slots, c);
    }
    hide Owned;
    hide Placed;
    hide Ordered;
    hide MatchCount;
    hide Kept;
  }

  lemma {:induction false} KeptLength(slots: seq<Slot<nat>>, c: nat)
    ensures |Kept(slots, c)| + MatchCount(slots, c) == |slots|
    decreases |slots|
  {
    if slots != [] {
      KeptLength(slots[1..], c);
    }
  }

  /** Of two connections that stay open, the one that became idle first is handed out first. */
  lemma FirstIdleFirst(w: World, steps: seq<Step>, i: nat, j: nat) returns (p: nat, q: nat)
    requires Inv(w) && Sane(w) && Possible(w, steps)
    requires var queue, end := w.pool.available + Freed(w, steps), Run(w, steps);
             && i < j < |queue| - |end.pool.available|
             && queue[i] !in end.closed && queue[j] !in end.closed
    ensures var queue, handed := w.pool.available + Freed(w, steps), Handed(w, steps);
            p < q < |handed| && handed[p] == queue[i] && handed[q] == queue[j]
  {
    var n := IdleInOrder(w, steps);
    var queue := w.pool.available + Freed(w, steps);
    p, q := PlacesInOrder(queue[..n], Handed(w, steps), Run(w, steps).closed, i, j);
  }

  lemma {:induction false} PlaceInOrder(queue: seq<nat>, handed: seq<nat>, closed: set<nat>, i: nat)
    returns (p: nat)
    requires InOrder(queue, handed, closed) && i < |queue| && queue[i] !in closed
    ensures p < |handed| && handed[p] == queue[i]
    decreases |queue|
  {
    p := 0;
    if handed != [] && handed[0] == queue[0] && InOrder(queue[1..], handed[1..], closed) {
      if i > 0 {
        p := PlaceInOrder(queue[1..], handed[1..], closed, i - 1);
        p := p + 1;
      }
    } else {
      p := PlaceInOrder(queue[1..], handed, closed, i - 1);
    }
  }

  lemma {:induction false} PlacesInOrder(queue: seq<nat>, handed: seq<nat>, closed: set<nat>, i: nat, j: nat)
    returns (p: nat, q: nat)
    requires InOrder(queue, handed, closed) && i < j < |queue| && queue[i] !in closed && queue[j] !in closed
    ensures p < q < |handed| && handed[p] == queue[i] && handed[q] == queue[j]
    decreases |queue|
  {
    if handed != [] && handed[0] == queue[0] && InOrder(queue[1..], handed[1..], closed) {
      if i == 0 {
        p := 0;
        q := PlaceInOrder(queue[1..], handed[1..], closed, j - 1);
      } else {
        p, q := PlacesInOrder(queue[1..], handed[1..], closed, i - 1, j - 1);
        p := p + 1;
      }
      q := q + 1;
    } else {
      p, q := PlacesInOrder(queue[1..], handed, closed, i - 1, j - 1);
    }
  }
}
