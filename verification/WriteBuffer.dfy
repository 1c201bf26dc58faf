/** The accounting of pending writes in include/net/asio/buffer.h. */
module WriteBuffer {

  /** A queued write: its future, and the number of bytes reserved for it. */
  datatype Entry = Entry(future: nat, size: nat)

  /** A future that was resolved, and the value it got. */
  datatype Resolution = Resolution(future: nat, total: nat)

  datatype State = State(pending: nat, queue: seq<Entry>, resolved: seq<Resolution>)

  const EMPTY := State(0, [], [])

  function Sum(entries: seq<Entry>): nat {
    if entries == [] then 0 else entries[0].size + Sum(entries[1..])
  }

  /** How many entries a completion of `bytes` takes off the queue. */
  function Covered(queue: seq<Entry>, bytes: nat): (n: nat)
    ensures n <= |queue|
  {
    if bytes > 0 && queue != [] && bytes >= queue[0].size then 1 + Covered(queue[1..], bytes - queue[0].size) else 0
  }

  /** The bytes of a completion that go to no entry: they are not deducted from any. */
  function Leftover(queue: seq<Entry>, bytes: nat): nat {
    if bytes > 0 && queue != [] && bytes >= queue[0].size then Leftover(queue[1..], bytes - queue[0].size) else bytes
  }

  function Resolutions(entries: seq<Entry>, total: nat): seq<Resolution> {
    if entries == [] then [] else [Resolution(entries[0].future, total)] + Resolutions(entries[1..], total)
  }

  function Write(s: State, e: Entry): State {
    s.(pending := s.pending + e.size, queue := s.queue + [e])
  }

  /** What `write_complete(bytes)` does, for no more bytes than are pending. */
  function Complete(s: State, bytes: nat): State
    requires bytes <= s.pending
  {
    var n := Covered(s.queue, bytes);
    State(s.pending - bytes, s.queue[n..], s.resolved + Resolutions(s.queue[..n], bytes))
  }

  /** The bytes still to come never exceed the sizes still queued. */
  predicate Valid(s: State) {
    s.pending <= Sum(s.queue)
  }

  lemma {:induction false} SumAppend(a: seq<Entry>, b: seq<Entry>)
    ensures Sum(a + b) == Sum(a) + Sum(b)
    decreases |a|
  {
    if a == [] {
      assert a + b == b;
    } else {
      assert (a + b)[1..] == a[1..] + b;
      SumAppend(a[1..], b);
    }
  }

  /** A completion is used up by the entries it covers, up to the leftover. */
  lemma {:induction false} CoveredSum(queue: seq<Entry>, bytes: nat)
    ensures var n := Covered(queue, bytes);
            && Sum(queue[..n]) + Leftover(queue, bytes) == bytes
            && (Leftover(queue, bytes) > 0 && n < |queue| ==> Leftover(queue, bytes) < queue[n].size)
            && (bytes <= Sum(queue) && Leftover(queue, bytes) > 0 ==> n < |queue|)
    decreases |queue|
  {
    if bytes > 0 && queue != [] && bytes >= queue[0].size {
      CoveredSum(queue[1..], bytes - queue[0].size);
      var n := Covered(queue, bytes);
      assert queue[..n][1..] == queue[1..][..n - 1];
    }
  }

  /** The completion ends where some entry ends. */
  ghost predicate OnBoundary(queue: seq<Entry>, bytes: nat) {
    exists k: nat :: k <= |queue| && Sum(queue[..k]) == bytes
  }

  /** No byte is lost exactly when the completion ends on the boundary of an entry. */
  lemma {:induction false} NothingLostIffBoundary(queue: seq<Entry>, bytes: nat)
    requires bytes <= Sum(queue)
    ensures Leftover(queue, bytes) == 0 <==> OnBoundary(queue, bytes)
    decreases |queue|
  {
    CoveredSum(queue, bytes);
    var n := Covered(queue, bytes);
    if Leftover(queue, bytes) == 0 {
      assert Sum(queue[..n]) == bytes;
    }
    if OnBoundary(queue, bytes) {
      var k: nat :| k <= |queue| && Sum(queue[..k]) == bytes;
      if k <= n {
        assert queue[..n] == queue[..k] + queue[k..n];
        SumAppend(queue[..k], queue[k..n]);
      } else {
        assert queue[..k] == queue[..n] + ([queue[n]] + queue[n + 1..k]);
        SumAppend(queue[..n], [queue[n]] + queue[n + 1..k]);
        SumAppend([queue[n]], queue[n + 1..k]);
      }
    }
  }

  /** Both operations keep the accounting valid. */
  lemma WriteValid(s: State, e: Entry)
    requires Valid(s)
    ensures Valid(Write(s, e)) && Drift(Write(s, e)) == Drift(s)
  {
    SumAppend(s.queue, [e]);
  }

  /** Queued sizes that no pending byte stands for. */
  function Drift(s: State): int {
    Sum(s.queue) - s.pending
  }

  lemma CompleteValid(s: State, bytes: nat)
    requires Valid(s) && bytes <= s.pending
    ensures Valid(Complete(s, bytes))
    ensures Drift(Complete(s, bytes)) == Drift(s) + Leftover(s.queue, bytes)
  {
    var n := Covered(s.queue, bytes);
    CoveredSum(s.queue, bytes);
    assert s.queue == s.queue[..n] + s.queue[n..];
    SumAppend(s.queue[..n], s.queue[n..]);
  }

  // ---- Every run. ----

  datatype Step = Writing(e: Entry) | Completing(bytes: nat)

  predicate Enabled(s: State, step: Step) {
    step.Completing? ==> step.bytes <= s.pending
  }

  function Do(s: State, step: Step): State
    requires Enabled(s, step)
  {
    match step case Writing(e) => Write(s, e) case Completing(bytes) => Complete(s, bytes)
  }

  predicate Possible(s: State, steps: seq<Step>)
    decreases |steps|
  {
    steps == [] || (Enabled(s, steps[0]) && Possible(Do(s, steps[0]), steps[1..]))
  }

  function Run(s: State, steps: seq<Step>): State
    requires Possible(s, steps)
    decreases |steps|
  {
    if steps == [] then s else Run(Do(s, steps[0]), steps[1..])
  }

  function Writes(steps: seq<Step>): seq<Entry> {
    if steps == [] then []
    else (if steps[0].Writing? then [steps[0].e] else []) + Writes(steps[1..])
  }

  function CompletedBytes(steps: seq<Step>): nat {
    if steps == [] then 0
    else (if steps[0].Completing? then steps[0].bytes else 0) + CompletedBytes(steps[1..])
  }

  ghost predicate AllOnBoundary(s: State, steps: seq<Step>)
    requires Possible(s, steps)
    decreases |steps|
  {
    steps != [] ==>
      && (steps[0].Completing? ==> OnBoundary(s.queue, steps[0].bytes))
      && AllOnBoundary(Do(s, steps[0]), steps[1..])
  }

  function Futures(rs: seq<Resolution>): seq<nat> {
    if rs == [] then [] else [rs[0].future] + Futures(rs[1..])
  }

  function FuturesOf(entries: seq<Entry>): seq<nat> {
    if entries == [] then [] else [entries[0].future] + FuturesOf(entries[1..])
  }

  /**
   * On every run the accounting stays valid, and the sizes queued keep their distance from the
   * bytes pending exactly when every completion ends on the boundary of an entry.
   */
  lemma {:induction false} DriftKeptIffOnBoundary(s: State, steps: seq<Step>)
    requires Valid(s) && Possible(s, steps)
    ensures Valid(Run(s, steps))
    ensures Drift(Run(s, steps)) >= Drift(s)
    ensures Drift(Run(s, steps)) == Drift(s) <==> AllOnBoundary(s, steps)
    decreases |steps|
  {
    hide Sum;
    hide Complete;
    hide Leftover;
    hide OnBoundary;
    if steps != [] {
      match steps[0] {
        case Writing(e) => WriteValid(s, e);
        case Completing(bytes) =>
          CompleteValid(s, bytes);
          NothingLostIffBoundary(s.queue, bytes);
      }
      DriftKeptIffOnBoundary(Do(s, steps[0]), steps[1..]);
    }
  }

  /**
   * On every run some number `k` of the writes is resolved and the rest is queued, both in the
   * order of writing; the sizes resolved never exceed the bytes completed; and no byte is
   * counted twice or forgotten in the total.
   */
  lemma {:induction false} ResolvedInOrder(s: State, steps: seq<Step>) returns (k: nat)
    requires Valid(s) && Possible(s, steps)
    ensures var end, all := Run(s, steps), s.queue + Writes(steps);
            && k <= |all| && end.queue == all[k..]
            && Futures(end.resolved) == Futures(s.resolved) + FuturesOf(all[..k])
            && Sum(all[..k]) <= CompletedBytes(steps)
            && end.pending + CompletedBytes(steps) == s.pending + Sum(Writes(steps))
    decreases |steps|
  {
    hide Futures;
    hide FuturesOf;
    hide Complete;
    hide Covered;
    hide Leftover;
    hide Drift;
    hide Sum;
    var all := s.queue + Writes(steps);
    if steps == [] {
      k := 0;
      assert all == s.queue && all[..0] == [];
      ResolvedNothing(s.resolved);
      SumNothing();
    } else {
      var next, later := Do(s, steps[0]), Writes(steps[1..]);
      match steps[0] {
        case Writing(e) =>
          WriteValid(s, e);
          k := ResolvedInOrder(next, steps[1..]);
          assert Writes(steps) == [e] + later;
          assert next.queue + later == all;
          SumFirst(e, later);
        case Completing(bytes) =>
          CompleteValid(s, bytes);
          var m := ResolvedInOrder(next, steps[1..]);
          assert Writes(steps) == later;
          k := Covered(s.queue, bytes) + m;
          ResolvedByCompletion(s, bytes, later, m);
      }
    }
  }

  lemma SumNothing()
    ensures Sum([]) == 0
  {
  }

  lemma SumFirst(e: Entry, later: seq<Entry>)
    ensures Sum([e] + later) == e.size + Sum(later)
  {
    assert ([e] + later)[1..] == later;
  }

  lemma ResolvedNothing(rs: seq<Resolution>)
    ensures Futures(rs) == Futures(rs) + FuturesOf([]) && FuturesOf([]) == []
  {
  }

  /** The writes resolved by a completion come before those resolved by the rest of the run. */
  lemma ResolvedByCompletion(s: State, bytes: nat, later: seq<Entry>, m: nat)
    requires Valid(s) && bytes <= s.pending
    requires m <= |Complete(s, bytes).queue + later|
    ensures var n, all, rest := Covered(s.queue, bytes), s.queue + later, Complete(s, bytes).queue + later;
            && n + m <= |all| && all[n + m..] == rest[m..]
            && Futures(s.resolved) + FuturesOf(all[..n + m]) ==
               Futures(Complete(s, bytes).resolved) + FuturesOf(rest[..m])
            && Sum(all[..n + m]) <= bytes + Sum(rest[..m])
            && Complete(s, bytes).pending == s.pending - bytes
  {
    hide Futures;
    hide FuturesOf;
    hide Sum;
    hide Resolutions;
    hide Leftover;
    hide Covered;
    var n := Covered(s.queue, bytes);
    var rest := s.queue[n..] + later;
    CutQueue(s.queue, later, n, m);
    CoveredSum(s.queue, bytes);
    SumAppend(s.queue[..n], rest[..m]);
    FuturesAppend(s.resolved, Resolutions(s.queue[..n], bytes));
    FuturesOfResolutions(s.queue[..n], bytes);
    FuturesOfAppend(s.queue[..n], rest[..m]);
  }

  lemma CutQueue(queue: seq<Entry>, later: seq<Entry>, n: nat, m: nat)
    requires n <= |queue| && m <= |queue[n..] + later|
    ensures var all, rest := queue + later, queue[n..] + later;
            && all[n + m..] == rest[m..] && all[..n + m] == queue[..n] + rest[..m]
            && all == queue[..n] + rest && queue == queue[..n] + queue[n..]
  {
  }

  lemma {:induction false} FuturesAppend(a: seq<Resolution>, b: seq<Resolution>)
    ensures Futures(a + b) == Futures(a) + Futures(b)
    decreases |a|
  {
    if a == [] {
      assert a + b == b;
    } else {
      assert (a + b)[1..] == a[1..] + b;
      FuturesAppend(a[1..], b);
    }
  }

  lemma {:induction false} FuturesOfAppend(a: seq<Entry>, b: seq<Entry>)
    ensures FuturesOf(a + b) == FuturesOf(a) + FuturesOf(b)
    decreases |a|
  {
    if a == [] {
      assert a + b == b;
    } else {
      assert (a + b)[1..] == a[1..] + b;
      FuturesOfAppend(a[1..], b);
    }
  }

  lemma {:induction false} FuturesOfResolutions(entries: seq<Entry>, total: nat)
    ensures Futures(Resolutions(entries, total)) == FuturesOf(entries)
    decreases |entries|
  {
    if entries != [] {
      FuturesOfResolutions(entries[1..], total);
      assert Resolutions(entries, total)[1..] == Resolutions(entries[1..], total);
    }
  }

  // ---- Which writes are resolved. ----

  /** How many futures a step resolves. */
  function Taken(s: State, step: Step): nat {
    if step.Completing? then Covered(s.queue, step.bytes) else 0
  }

  /** Among all writes of the run, the place of the one at the head of the queue before step `p`. */
  function Head(s: State, steps: seq<Step>, p: nat): nat
    requires Possible(s, steps) && p <= |steps|
    decreases p
  {
    if p == 0 then 0 else Taken(s, steps[0]) + Head(Do(s, steps[0]), steps[1..], p - 1)
  }

  /** As many bytes as the sizes from place `h` up to place `j`, and more than those before it. */
  predicate Suffice(all: seq<Entry>, h: nat, j: nat, bytes: nat) {
    h <= j < |all| && bytes >= Sum(all[h..j + 1]) && bytes > Sum(all[h..j])
  }

  /**
   * Step `p` pays for the write at place `j`: a completion with enough bytes for all that is
   * queued from the head up to this write.
   */
  predicate Pays(s: State, steps: seq<Step>, p: nat, j: nat)
    requires Possible(s, steps) && p < |steps|
  {
    steps[p].Completing? && Suffice(s.queue + Writes(steps), Head(s, steps, p), j, steps[p].bytes)
  }

  ghost predicate PaidAtOnce(s: State, steps: seq<Step>, j: nat)
    requires Possible(s, steps)
  {
    exists p: nat | p < |steps| :: Pays(s, steps, p, j)
  }

  /** A completion takes off exactly the entries whose sizes it covers with bytes to spare before them. */
  lemma {:induction false} CoveredIff(queue: seq<Entry>, bytes: nat, i: nat)
    requires i < |queue|
    ensures i < Covered(queue, bytes) <==> bytes >= Sum(queue[..i + 1]) && bytes > Sum(queue[..i])
    decreases |queue|
  {
    assert queue[..i + 1][1..] == queue[1..][..i];
    if i > 0 {
      assert queue[..i][1..] == queue[1..][..i - 1];
      if bytes >= queue[0].size {
        CoveredIff(queue[1..], bytes - queue[0].size, i - 1);
      }
    }
  }

  /** What one step makes of the queue and of all the writes of the run. */
  lemma StepShifts(s: State, steps: seq<Step>)
    requires Valid(s) && Possible(s, steps) && steps != []
    ensures var next, n, all := Do(s, steps[0]), Taken(s, steps[0]), s.queue + Writes(steps);
            && Valid(next) && n <= |all| && next.queue + Writes(steps[1..]) == all[n..]
            && |next.resolved| == |s.resolved| + n
  {
    hide Sum;
    hide Covered;
    var later := Writes(steps[1..]);
    match steps[0] {
      case Writing(e) =>
        WriteValid(s, e);
        assert s.queue + [e] + later == s.queue + ([e] + later);
      case Completing(bytes) =>
        CompleteValid(s, bytes);
        ResolutionsLength(s.queue[..Covered(s.queue, bytes)], bytes);
        assert s.queue[Covered(s.queue, bytes)..] + later == (s.queue + later)[Covered(s.queue, bytes)..];
    }
  }

  lemma {:induction false} ResolutionsLength(entries: seq<Entry>, total: nat)
    ensures |Resolutions(entries, total)| == |entries|
    decreases |entries|
  {
    if entries != [] {
      ResolutionsLength(entries[1..], total);
    }
  }

  /** The head moves with the futures resolved. */
  lemma {:induction false} HeadIsResolved(s: State, steps: seq<Step>, p: nat)
    requires Valid(s) && Possible(s, steps) && p <= |steps|
    ensures Possible(s, steps[..p]) && |Run(s, steps[..p]).resolved| == |s.resolved| + Head(s, steps, p)
    decreases p
  {
    hide Do;
    hide Taken;
    hide Writes;
    if p == 0 {
      assert steps[..0] == [];
    } else {
      StepShifts(s, steps);
      HeadIsResolved(Do(s, steps[0]), steps[1..], p - 1);
      assert steps[..p][1..] == steps[1..][..p - 1] && steps[..p][0] == steps[0];
    }
  }

  /** The first step pays for the write at place `j` exactly if it resolves it. */
  lemma FirstPaysIff(s: State, steps: seq<Step>, j: nat)
    requires Valid(s) && Possible(s, steps) && steps != [] && j < |s.queue + Writes(steps)|
    ensures Pays(s, steps, 0, j) <==> j < Taken(s, steps[0])
  {
    hide Sum;
    hide Covered;
    var all, queue := s.queue + Writes(steps), s.queue;
    if steps[0].Completing? {
      if j < |queue| {
        CoveredIff(queue, steps[0].bytes, j);
        assert all[..j + 1] == queue[..j + 1] && all[..j] == queue[..j];
      } else {
        assert all[..j] == queue + all[|queue|..j];
        SumAppend(queue, all[|queue|..j]);
      }
    }
  }

  /** A later step pays in the run exactly if it pays in the rest of the run. */
  lemma LaterPaysIff(s: State, steps: seq<Step>, p: nat, j: nat)
    requires Valid(s) && Possible(s, steps) && 0 < p < |steps| && Taken(s, steps[0]) <= j
    ensures Pays(s, steps, p, j) <==> Pays(Do(s, steps[0]), steps[1..], p - 1, j - Taken(s, steps[0]))
  {
    hide Sum;
    hide Taken;
    hide Do;
    hide Writes;
    hide Valid;
    hide Suffice;
    var n := Taken(s, steps[0]);
    StepShifts(s, steps);
    if steps[p].Completing? {
      SufficeShifts(s.queue + Writes(steps), n, Head(s, steps, p), j, steps[p].bytes);
    }
  }

  lemma SufficeShifts(all: seq<Entry>, n: nat, h: nat, j: nat, bytes: nat)
    requires n <= |all| && n <= h && n <= j
    ensures Suffice(all, h, j, bytes) <==> Suffice(all[n..], h - n, j - n, bytes)
  {
    hide Sum;
    if h <= j < |all| {
      assert all[n..][h - n..j - n] == all[h..j] && all[n..][h - n..j - n + 1] == all[h..j + 1];
    }
  }

  /**
   * The write at place `j`, counting from the head of the queue, is resolved by the run if and
   * only if one single completion pays for it and for all that is still queued before it. Bytes
   * of several completions never add up.
   */
  lemma {:induction false} ResolvedIffPaidAtOnce(s: State, steps: seq<Step>, j: nat)
    requires Valid(s) && Possible(s, steps) && j < |s.queue + Writes(steps)|
    ensures j < |Run(s, steps).resolved| - |s.resolved| <==> PaidAtOnce(s, steps, j)
    decreases |steps|
  {
    hide Do;
    hide Taken;
    hide Pays;
    hide Head;
    if steps != [] {
      var next, n := Do(s, steps[0]), Taken(s, steps[0]);
      StepShifts(s, steps);
      FirstPaysIff(s, steps, j);
      if j < n {
        ResolvedGrows(next, steps[1..]);
        assert Pays(s, steps, 0, j);
      } else {
        ResolvedIffPaidAtOnce(next, steps[1..], j - n);
        if PaidAtOnce(next, steps[1..], j - n) {
          var p: nat :| p < |steps| - 1 && Pays(next, steps[1..], p, j - n);
          LaterPaysIff(s, steps, p + 1, j);
          assert Pays(s, steps, p + 1, j);
        }
        forall p: nat | 0 < p < |steps| && Pays(s, steps, p, j) ensures PaidAtOnce(next, steps[1..], j - n) {
          LaterPaysIff(s, steps, p, j);
          assert Pays(next, steps[1..], p - 1, j - n);
        }
      }
    }
  }

  lemma ResolvedGrows(s: State, steps: seq<Step>)
    requires Valid(s) && Possible(s, steps)
    ensures |s.resolved| <= |Run(s, steps).resolved|
  {
    HeadIsResolved(s, steps, |steps|);
    assert steps[..|steps|] == steps;
  }

  /**
   * The future of a write is resolved with the size of the completion that pays for it: the bytes
   * of that one call, not those of the write, and not those still pending.
   */
  lemma {:induction false} ResolvedWith(s: State, steps: seq<Step>, p: nat, j: nat)
    requires Valid(s) && Possible(s, steps) && p < |steps| && Pays(s, steps, p, j)
    ensures var end, all := Run(s, steps), s.queue + Writes(steps);
            && j < |all| && |s.resolved| + j < |end.resolved|
            && end.resolved[|s.resolved| + j] == Resolution(all[j].future, steps[p].bytes)
    decreases p
  {
    hide Do;
    hide Taken;
    hide Sum;
    var next, n, all := Do(s, steps[0]), Taken(s, steps[0]), s.queue + Writes(steps);
    StepShifts(s, steps);
    if p == 0 {
      FirstPaysIff(s, steps, j);
      FirstResolves(s, steps, j);
      ResolvedPrefix(next, steps[1..]);
    } else {
      assert n <= Head(s, steps, p) <= j;
      LaterPaysIff(s, steps, p, j);
      hide Pays;
      ResolvedWith(next, steps[1..], p - 1, j - n);
      assert all[n..][j - n] == all[j];
    }
  }

  /** A completion resolves the writes that it takes, each with its own size. */
  lemma FirstResolves(s: State, steps: seq<Step>, j: nat)
    requires Possible(s, steps) && steps != [] && j < Taken(s, steps[0])
    ensures var resolved := Do(s, steps[0]).resolved;
            && j < |s.queue| && |s.resolved| + j < |resolved|
            && resolved[|s.resolved| + j] == Resolution(s.queue[j].future, steps[0].bytes)
  {
    hide Covered;
    var bytes := steps[0].bytes;
    ResolutionAt(s.queue[..Covered(s.queue, bytes)], bytes, j);
  }

  lemma {:induction false} ResolutionAt(entries: seq<Entry>, total: nat, j: nat)
    requires j < |entries|
    ensures |Resolutions(entries, total)| == |entries|
    ensures Resolutions(entries, total)[j] == Resolution(entries[j].future, total)
    decreases |entries|
  {
    ResolutionsLength(entries, total);
    if j > 0 {
      ResolutionAt(entries[1..], total, j - 1);
    }
  }

  /** What is resolved stays so. */
  lemma {:induction false} ResolvedPrefix(s: State, steps: seq<Step>)
    requires Possible(s, steps)
    ensures s.resolved <= Run(s, steps).resolved
    decreases |steps|
  {
    if steps != [] {
      ResolvedPrefix(Do(s, steps[0]), steps[1..]);
    }
  }

  /** The write at the head is still queued exactly if every completion was smaller than it. */
  lemma {:induction false} HeadStaysIff(s: State, steps: seq<Step>)
    requires Valid(s) && Possible(s, steps) && s.queue != [] && s.queue[0].size > 0
    ensures |Run(s, steps).resolved| == |s.resolved| <==>
            forall step <- steps :: step.Completing? ==> step.bytes < s.queue[0].size
    decreases |steps|
  {
    hide Sum;
    if steps != [] {
      StepShifts(s, steps);
      assert steps[0] in steps && forall step <- steps[1..] :: step in steps;
      assert forall step <- steps :: step == steps[0] || step in steps[1..];
      if Taken(s, steps[0]) == 0 {
        HeadStaysIff(Do(s, steps[0]), steps[1..]);
      } else {
        ResolvedGrows(Do(s, steps[0]), steps[1..]);
      }
    }
  }

  /** Once no byte is pending, all sizes are resolved exactly if no completion fell short. */
  lemma AllResolvedIff(steps: seq<Step>)
    requires Possible(EMPTY, steps) && Run(EMPTY, steps).pending == 0
    ensures Sum(Run(EMPTY, steps).queue) == 0 <==> AllOnBoundary(EMPTY, steps)
  {
    hide Run;
    hide Possible;
    hide AllOnBoundary;
    DriftKeptIffOnBoundary(EMPTY, steps);
  }

  /** A write of two bytes that completes one byte at a time, and another one that completes at once. */
  const TWO_WRITES: seq<Step> :=
    [Writing(Entry(0, 2)), Completing(1), Completing(1), Writing(Entry(1, 2)), Completing(2)]

  /**
   * The equality does fail: a write of two bytes that completes one byte at a time is not
   * resolved, although no byte is pending any more. Only bytes of a later write can do that.
   */
  lemma OneByteAtATime()
    ensures var steps := TWO_WRITES[..3];
            Possible(EMPTY, steps) && Run(EMPTY, steps) == State(0, [Entry(0, 2)], [])
  {
    hide Do;
    hide Run;
    hide Possible;
    var steps := TWO_WRITES[..3];
    var s1, s2, s3 := State(2, [Entry(0, 2)], []), State(1, [Entry(0, 2)], []), State(0, [Entry(0, 2)], []);
    OneEntry();
    NoSteps(s3);
    assert steps[3..] == [] && steps[0..] == steps;
    StepAt(s2, steps, 2);
    StepAt(s1, steps, 1);
    StepAt(EMPTY, steps, 0);
  }

  /** The bytes of the next write resolve it, and then that write is left over instead. */
  lemma NextWritePays()
    ensures Possible(EMPTY, TWO_WRITES)
    ensures Run(EMPTY, TWO_WRITES) == State(0, [Entry(1, 2)], [Resolution(0, 2)])
  {
    hide Do;
    hide Run;
    hide Possible;
    var steps := TWO_WRITES;
    var s1, s2, s3 := State(2, [Entry(0, 2)], []), State(1, [Entry(0, 2)], []), State(0, [Entry(0, 2)], []);
    var s4, s5 := State(2, [Entry(0, 2), Entry(1, 2)], []), State(0, [Entry(1, 2)], [Resolution(0, 2)]);
    OneEntry();
    TwoEntries();
    NoSteps(s5);
    assert steps[5..] == [] && steps[0..] == steps;
    StepAt(s4, steps, 4);
    StepAt(s3, steps, 3);
    StepAt(s2, steps, 2);
    StepAt(s1, steps, 1);
    StepAt(EMPTY, steps, 0);
  }

  lemma StepAt(s: State, steps: seq<Step>, i: nat)
    requires i < |steps| && Enabled(s, steps[i]) && Possible(Do(s, steps[i]), steps[i + 1..])
    ensures Possible(s, steps[i..]) && Run(s, steps[i..]) == Run(Do(s, steps[i]), steps[i + 1..])
  {
    assert steps[i..][1..] == steps[i + 1..];
  }

  lemma NoSteps(s: State)
    ensures Possible(s, []) && Run(s, []) == s
  {
  }

  lemma OneEntry()
    ensures Do(EMPTY, Writing(Entry(0, 2))) == State(2, [Entry(0, 2)], [])
    ensures Do(State(2, [Entry(0, 2)], []), Completing(1)) == State(1, [Entry(0, 2)], [])
    ensures Do(State(1, [Entry(0, 2)], []), Completing(1)) == State(0, [Entry(0, 2)], [])
    ensures Do(State(0, [Entry(0, 2)], []), Writing(Entry(1, 2))) == State(2, [Entry(0, 2), Entry(1, 2)], [])
  {
    assert [Entry(0, 2)] + [Entry(1, 2)] == [Entry(0, 2), Entry(1, 2)] && [] + [Entry(0, 2)] == [Entry(0, 2)];
  }

  lemma TwoEntries()
    ensures Do(State(2, [Entry(0, 2), Entry(1, 2)], []), Completing(2)) == State(0, [Entry(1, 2)], [Resolution(0, 2)])
  {
    var a, b := Entry(0, 2), Entry(1, 2);
    assert [a, b][1..] == [b] && [a, b][..1] == [a] && [a][1..] == [];
    assert Covered([b], 0) == 0 && Covered([a, b], 2) == 1;
    assert Resolutions([a], 2) == [Resolution(0, 2)];
  }

  class Buffer {
    var pending: nat
    var queue: seq<Entry>
    var resolved: seq<Resolution>

    ghost function Value(): State
      reads this
    {
      State(pending, queue, resolved)
    }

    constructor ()
      ensures Value() == EMPTY && Valid(Value())
    {
      pending, queue, resolved := 0, [], [];
    }

    /** Queues a write for which `count` bytes were reserved. */
    method Enqueue(future: nat, count: nat)
      requires Valid(Value())
      modifies this
      ensures Valid(Value()) && Value() == Write(old(Value()), Entry(future, count))
    {
      WriteValid(Value(), Entry(future, count));
      pending := pending + count;
      queue := queue + [Entry(future, count)];
    }

    method WriteComplete(bytes: nat)
      requires Valid(Value()) && bytes <= pending
      modifies this
      ensures Valid(Value()) && Value() == Complete(old(Value()), bytes)
    {
      hide Sum;
      hide Resolutions;
      CompleteValid(Value(), bytes);
      CoveredSum(queue, bytes);
      NoResolutions(bytes);
      ghost var all, n := queue, Covered(queue, bytes);
      ghost var lost, done := Leftover(queue, bytes), 0;
      assert all[..0] == [] && all[0..] == all;
      hide Valid;
      var total := bytes;
      var left: nat := bytes;
      pending := pending - bytes;
      while left > 0 && queue != []
        invariant done <= n && queue == all[done..] && pending == old(pending) - bytes
        invariant resolved == old(resolved) + Resolutions(all[..done], bytes)
        invariant left == 0 ==> done == n
        invariant left > 0 ==> Covered(queue, left) == n - done && Leftover(queue, left) == lost
        decreases |queue|, left
      {
        var w := queue[0];
        if left >= w.size {
          ResolutionsAppend(all, done, total);
          assert all[done..][1..] == all[done + 1..];
          queue := queue[1..];
          resolved := resolved + [Resolution(w.future, total)];
          left := left - w.size;
          done := done + 1;
        } else {
          w := w.(size := w.size - left);
          left := 0;
        }
      }
      AllTaken(all, done, left, lost, n);
      assert left == 0;
    }
  }

  /** With bytes left there is an entry left that is larger. */
  lemma AllTaken(all: seq<Entry>, done: nat, left: nat, lost: nat, n: nat)
    requires done <= n <= |all| && (left > 0 ==> Leftover(all[done..], left) == lost && (lost > 0 ==> n < |all|))
    requires left > 0 ==> all[done..] == [] && Covered(all[done..], left) == n - done
    ensures left == 0
  {
  }

  lemma NoResolutions(total: nat)
    ensures Resolutions([], total) == []
  {
  }

  lemma ResolutionsAppend(entries: seq<Entry>, i: nat, total: nat)
    requires i < |entries|
    ensures Resolutions(entries[..i + 1], total) ==
            Resolutions(entries[..i], total) + [Resolution(entries[i].future, total)]
  {
    hide Resolutions;
    assert entries[..i + 1] == entries[..i] + [entries[i]];
    ResolutionsLast(entries[..i], entries[i], total);
  }

  lemma {:induction false} ResolutionsLast(entries: seq<Entry>, e: Entry, total: nat)
    ensures Resolutions(entries + [e], total) == Resolutions(entries, total) + [Resolution(e.future, total)]
    decreases |entries|
  {
    if entries == [] {
      assert [] + [e] == [e] && [e][1..] == [];
      assert Resolutions([e], total) == [Resolution(e.future, total)] + Resolutions([], total);
    } else {
      assert (entries + [e])[1..] == entries[1..] + [e];
      ResolutionsLast(entries[1..], e, total);
      var first := [Resolution(entries[0].future, total)];
      var more := Resolutions(entries[1..], total);
      assert first + (more + [Resolution(e.future, total)]) == (first + more) + [Resolution(e.future, total)];
    }
  }
}
