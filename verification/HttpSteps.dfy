/** What one step of the system adds: a report of a reader, and a request on a connection. */
module HttpSteps {
  import opened HttpReader
  import opened HttpOutcome
  import opened PoolRuns
  import opened HttpSystem

  /** The pool writes at most one request at a time, and never forgets one it wrote. */
  ghost predicate Advances(w: World, v: World) {
    && Placed(w) && Placed(v)
    && w.writes <= v.writes && |v.writes| <= |w.writes| + 1
  }

  lemma StepAdvances(w: World, step: PoolRuns.Step)
    requires Inv(w) && Sane(w) && Enabled(w, step)
    ensures Advances(w, Do(w, step))
    ensures |Do(w, step).place| == |w.place| + if step.Next? then 1 else 0
  {
    InvKept(w, step);
    StepGrows(w, step);
    assert Placed(w) && Placed(Do(w, step));
  }

  /** The attempt has not been written to a connection. */
  predicate Unwritten(w: World, a: nat) {
    a < |w.place| ==> !w.place[a].Written?
  }

  lemma WrittenStays(w: World, v: World, a: nat)
    requires Advances(w, v) && a < |w.place| && w.place[a].Written?
    ensures a < |v.place| && v.place[a] == w.place[a]
  {
    assert Found(w, a);
    assert (w.place[a].conn, a) in v.writes;
  }

  lemma NewWriteUnwritten(w: World, v: World)
    requires Advances(w, v) && |v.writes| > |w.writes|
    ensures Unwritten(w, v.writes[|w.writes|].1)
  {
    var a := v.writes[|w.writes|].1;
    assert forall i | 0 <= i < |w.writes| :: w.writes[i] == v.writes[i] && v.writes[i].1 != a;
    assert a < |w.place| ==> Found(w, a);
  }

  /** The current response of each connection is that of an attempt written to it. */
  lemma ReaderPlaced(s: System, c: nat)
    requires Linked(s) && c < |s.readers| && s.readers[c].res.Some?
    ensures var a := s.readers[c].res.value.id;
            a < |s.world.place| && s.world.place[a] == Written(c)
  {
    var a := s.readers[c].res.value.id;
    ReaderOf(s, c);
    assert OnConn(s.world.writes, c) == OnConn(s.world.answers, c) + Current(s.world.busy, c);
    OnConnWritten(s.world.writes, c, a);
  }

  lemma {:induction false} OnConnWritten(log: seq<(nat, nat)>, c: nat, a: nat)
    requires a in OnConn(log, c)
    ensures (c, a) in log
    decreases |log|
  {
    if a in OnConn(log[..|log| - 1], c) {
      OnConnWritten(log[..|log| - 1], c, a);
    } else {
      assert log[|log| - 1] == (c, a);
    }
  }

  /** What the event itself makes of a reader, before the pool acts. */
  function Own(s: System, e: HttpSystem.Event, c: nat): Reader
    requires Linked(s) && HttpSystem.Possible(s, e)
  {
    if e.On? && e.conn == c then
      ReaderOf(s, c);
      After(s.readers[c], e.event)
    else if c < |s.readers| then s.readers[c]
    else CONNECTED
  }

  /** Beyond that, a step attaches a request that was not written before. */
  predicate Attached(w: World, own: Reader, r: Reader) {
    r == own || (r.res.Some? && !r.res.value.ready && Unwritten(w, r.res.value.id))
  }

  lemma WithWorldAttaches(s: System, w: World, after: World)
    requires s.world == w && Advances(w, after)
    ensures WithWorld(s, after).world == after && |s.readers| <= |WithWorld(s, after).readers|
    ensures forall c: nat | c < |WithWorld(s, after).readers| ::
              Attached(w, if c < |s.readers| then s.readers[c] else CONNECTED, WithWorld(s, after).readers[c])
  {
    hide Placed;
    if |after.writes| > |w.writes| {
      NewWriteUnwritten(w, after);
    }
  }

  lemma QuietOwn(s: System, e: HttpSystem.Event)
    requires Linked(s) && HttpSystem.Possible(s, e) && !e.On?
    ensures forall c: nat :: Own(s, e, c) == if c < |s.readers| then s.readers[c] else CONNECTED
  {
  }

  /** A step of the pool alone. */
  lemma WorldReaders(s: System, e: HttpSystem.Event)
    requires Linked(s) && HttpSystem.Possible(s, e) && !e.On?
    ensures var next := HttpSystem.Next(s, e);
            && Advances(s.world, next.world)
            && |next.world.place| == |s.world.place| + (if e.Request? then 1 else 0)
            && |s.readers| <= |next.readers|
            && forall c: nat | c < |next.readers| :: Attached(s.world, Own(s, e, c), next.readers[c])
  {
    LinkedSane(s);
    SoundHere(s);
    QuietOwn(s, e);
    hide Linked;
    hide Inv;
    hide Advances;
    hide Attached;
    hide Sound;
    hide WithWorld;
    hide DoNext;
    hide DoConnected;
    hide DoClose;
    hide Own;
    match e {
      case Request =>
        StepAdvances(s.world, PoolRuns.Next);
        WithWorldAttaches(s, s.world, DoNext(s.world));
      case Made(c) =>
        StepAdvances(s.world, PoolRuns.Connected(c));
        WithWorldAttaches(s, s.world, DoConnected(s.world, c));
      case Refused(c) =>
        UnmadeBelow(s, c);
        StepAdvances(s.world, PoolRuns.Close(c));
        WithWorldAttaches(s, s.world, DoClose(s.world, c));
      case Removal(c) =>
        RemovalMade(s, c);
        StepAdvances(s.world, PoolRuns.Close(c));
        WithWorldAttaches(s.(removals := s.removals - {c}), s.world, DoClose(s.world, c));
    }
  }

  lemma StepReaders(s: System, e: HttpSystem.Event)
    requires Linked(s) && HttpSystem.Possible(s, e)
    ensures var next := HttpSystem.Next(s, e);
            && Linked(next) && Advances(s.world, next.world)
            && |next.world.place| == |s.world.place| + (if e.Request? then 1 else 0)
            && |s.readers| <= |next.readers|
            && forall c: nat | c < |next.readers| :: Attached(s.world, Own(s, e, c), next.readers[c])
  {
    NextLinked(s, e);
    hide Linked;
    hide Advances;
    hide Attached;
    hide Own;
    hide HttpSystem.Next;
    if e.On? {
      OnReaders(s, e.conn, e.event);
    } else {
      WorldReaders(s, e);
    }
  }

  lemma SoundHere(s: System)
    requires Sound(s)
    ensures !s.world.badErase
  {
  }

  lemma UnmadeBelow(s: System, c: nat)
    requires Linked(s) && Unmade(s.world, c)
    ensures c < s.world.conns
  {
  }

  lemma OnReaders(s: System, c: nat, event: HttpReader.Event)
    requires Linked(s) && HttpSystem.Possible(s, On(c, event))
    ensures var e, next := On(c, event), HttpSystem.Next(s, On(c, event));
            && Advances(s.world, next.world) && |next.world.place| == |s.world.place|
            && |s.readers| <= |next.readers|
            && forall d: nat | d < |next.readers| :: Attached(s.world, Own(s, e, d), next.readers[d])
  {
    hide Ending;
    hide Inv;
    hide Fits;
    hide Consistent;
    LinkedSane(s);
    ReaderOf(s, c);
    AfterOutcome(s.readers[c], event);
    var after := After(s.readers[c], event);
    OnReaderAttaches(s, c, after);
    hide OnReader;
    hide Attached;
    var e, next := On(c, event), HttpSystem.Next(s, On(c, event));
    forall d: nat | d < |next.readers| ensures Attached(s.world, Own(s, e, d), next.readers[d]) {
      assert d < |s.readers| ==> s.readers[c := after][d] == Own(s, e, d);
    }
  }

  lemma OnReaderAttaches(s: System, c: nat, after: Reader)
    requires Linked(s) && Sound(s) && IsMade(s, c) && Ending(s.readers[c], after)
    ensures var readers, next := s.readers[c := after], OnReader(s, c, after);
            && Advances(s.world, next.world) && |next.world.place| == |s.world.place|
            && |s.readers| <= |next.readers|
            && forall d: nat | d < |next.readers| ::
                 Attached(s.world, if d < |s.readers| then readers[d] else CONNECTED, next.readers[d])
  {
    hide FitsAll;
    hide Inv;
    hide Attached;
    hide Report;
    hide DoAnswered;
    hide DoClose;
    hide WithWorld;
    LinkedSane(s);
    var calls := NewCalls(s.readers[c], after);
    var s1 := s.(readers := s.readers[c := after]);
    SameAdvances(s.world);
    if Release in calls && c in s.world.busy {
      StepAdvances(s.world, PoolRuns.Answered(c));
      WithWorldAttaches(s1, s.world, DoAnswered(s.world, c));
    } else if Remove in calls && calls[0] == Remove {
      StepAdvances(s.world, PoolRuns.Close(c));
      WithWorldAttaches(s1, s.world, DoClose(s.world, c));
    } else {
      AttachedSame(s.world, s1.readers);
      if c in s.world.busy {
        StepAdvances(s.world, PoolRuns.LastAnswer(c));
      }
    }
  }

  lemma SameAdvances(w: World)
    requires Inv(w)
    ensures Advances(w, w)
  {
    assert Placed(w);
    hide Placed;
  }

  lemma AttachedSame(w: World, readers: seq<Reader>)
    ensures forall d: nat | d < |readers| :: Attached(w, readers[d], readers[d])
  {
  }
}
