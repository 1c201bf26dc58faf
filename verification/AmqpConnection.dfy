/** The write and read handlers of include/net/asio/amqp/connection.h. */
module AmqpConnection {
  import opened Text

  lemma {:induction false} FlattenAppend(a: seq<string>, b: seq<string>)
    ensures Flatten(a + b) == Flatten(a) + Flatten(b)
    decreases |a|
  {
    if a == [] {
      assert a + b == b;
    } else {
      assert (a + b)[1..] == a[1..] + b;
      FlattenAppend(a[1..], b);
      assert a[0] + (Flatten(a[1..]) + Flatten(b)) == a[0] + Flatten(a[1..]) + Flatten(b);
    }
  }

  // ---- Writing. ----

  /** `posted` is everything appended by posted onData steps, `batches` what the socket was given. */
  datatype Writer = Writer(
    active: bool, writing: bool, outgoing: string, posted: string, batches: seq<string>, completions: nat)

  const IDLE := Writer(false, false, "", "", [], 0)

  /** `weak`: compare_exchange_weak failed although no write was outstanding. */
  function WriteHandler(w: Writer, weak: bool): Writer {
    if w.writing || weak then w
    else if w.outgoing == "" then w
    else w.(writing := true, outgoing := "", batches := w.batches + [w.outgoing])
  }

  /** The handlers that run on the strand. */
  datatype Step = Setup(weak: bool) | Posted(data: string, weak: bool) | Written(ok: bool, weak: bool)

  predicate Enabled(w: Writer, s: Step) {
    match s
    case Setup(_) => !w.active
    case Posted(_, _) => true
    case Written(_, _) => w.writing
  }

  function Do(w: Writer, s: Step): Writer {
    match s
    case Setup(weak) =>
      var w1 := w.(active := true);
      if w1.outgoing != "" then WriteHandler(w1, weak) else w1
    case Posted(data, weak) =>
      var w1 := w.(outgoing := w.outgoing + data, posted := w.posted + data);
      if w1.active then WriteHandler(w1, weak) else w1
    case Written(ok, weak) =>
      var w1 := w.(writing := false, completions := w.completions + 1);
      if ok then WriteHandler(w1, weak) else w1
  }

  /** At most one batch is outstanding, and no byte is lost, repeated or overtaken. */
  predicate Valid(w: Writer) {
    && |w.batches| == w.completions + (if w.writing then 1 else 0)
    && Flatten(w.batches) + w.outgoing == w.posted
    && (w.writing ==> w.active)
  }

  /** Data waits, and no completion is to come that would write it. */
  predicate Stalled(w: Writer) {
    w.active && !w.writing && w.outgoing != ""
  }

  lemma WriteHandlerValid(w: Writer, weak: bool)
    requires Valid(w) && w.active
    ensures Valid(WriteHandler(w, weak))
  {
    FlattenAppend(w.batches, [w.outgoing]);
    assert [w.outgoing][1..] == [] && Flatten([w.outgoing]) == w.outgoing + "" == w.outgoing;
  }

  lemma StepValid(w: Writer, s: Step)
    requires Valid(w) && Enabled(w, s)
    ensures Valid(Do(w, s))
  {
    hide Flatten;
    match s {
      case Setup(weak) =>
        WriteHandlerValid(w.(active := true), weak);
      case Posted(data, weak) =>
        var w1 := w.(outgoing := w.outgoing + data, posted := w.posted + data);
        assert Flatten(w.batches) + (w.outgoing + data) == (Flatten(w.batches) + w.outgoing) + data;
        if w.active {
          WriteHandlerValid(w1, weak);
        }
      case Written(ok, weak) =>
        WriteHandlerValid(w.(writing := false, completions := w.completions + 1), weak);
    }
  }

  predicate Possible(w: Writer, steps: seq<Step>)
    decreases |steps|
  {
    steps == [] || (Enabled(w, steps[0]) && Possible(Do(w, steps[0]), steps[1..]))
  }

  function Run(w: Writer, steps: seq<Step>): Writer
    decreases |steps|
  {
    if steps == [] then w else Run(Do(w, steps[0]), steps[1..])
  }

  /** A compare-exchange failed spuriously or the socket failed. */
  predicate Mishap(s: Step) {
    s.weak || (s.Written? && !s.ok)
  }

  /** All the data that a run posts. */
  function PostedData(steps: seq<Step>): string {
    if steps == [] then "" else (if steps[0].Posted? then steps[0].data else "") + PostedData(steps[1..])
  }

  /** How many writes complete in a run, with or without an error. */
  function WrittenCount(steps: seq<Step>): nat {
    if steps == [] then 0 else (if steps[0].Written? then 1 else 0) + WrittenCount(steps[1..])
  }

  /**
   * On every run, whether it fails or not, the batches handed to the socket followed by the
   * bytes that wait are the data of all its posts, in order; the batches are one for each write
   * that completed, and at most one more; and the writer is active once it was set up.
   */
  lemma {:induction false} NothingLost(w: Writer, steps: seq<Step>)
    requires Valid(w) && Possible(w, steps)
    ensures var end := Run(w, steps);
            && Flatten(end.batches) + end.outgoing == Flatten(w.batches) + w.outgoing + PostedData(steps)
            && |end.batches| + (if w.writing then 1 else 0) ==
               |w.batches| + WrittenCount(steps) + (if end.writing then 1 else 0)
            && (end.active <==> w.active || exists s <- steps :: s.Setup?)
    decreases |steps|
  {
    if steps == [] {
      assert Flatten(w.batches) + w.outgoing + "" == Flatten(w.batches) + w.outgoing;
    } else {
      var s, next := steps[0], Do(w, steps[0]);
      StepValid(w, s);
      NothingLost(next, steps[1..]);
      StepPosts(w, s);
      hide Do;
      hide Valid;
      var before, data := Flatten(w.batches) + w.outgoing, if s.Posted? then s.data else "";
      assert before + data + PostedData(steps[1..]) == before + (data + PostedData(steps[1..]));
      assert forall t :: t in steps <==> t == s || t in steps[1..];
    }
  }

  /** What one step hands over, and what it completes. */
  lemma StepPosts(w: Writer, s: Step)
    requires Valid(w) && Enabled(w, s) && Valid(Do(w, s))
    ensures var next := Do(w, s);
            && Flatten(next.batches) + next.outgoing ==
               Flatten(w.batches) + w.outgoing + (if s.Posted? then s.data else "")
            && |next.batches| + (if w.writing then 1 else 0) ==
               |w.batches| + (if s.Written? then 1 else 0) + (if next.writing then 1 else 0)
            && (next.active <==> w.active || s.Setup?)
  {
    hide Flatten;
    assert w.posted + "" == w.posted;
  }

  /**
   * On every run at most one batch is outstanding and the batches followed by the waiting bytes
   * are the bytes posted; and without a mishap waiting data always has a write outstanding.
   */
  lemma {:induction false} EveryRun(w: Writer, steps: seq<Step>)
    requires Valid(w) && Possible(w, steps)
    ensures Valid(Run(w, steps))
    ensures Flatten(Run(w, steps).batches) + Run(w, steps).outgoing == w.posted + PostedData(steps)
    ensures !Stalled(w) && (forall s <- steps :: !Mishap(s)) ==> !Stalled(Run(w, steps))
    decreases |steps|
  {
    NothingLost(w, steps);
    if steps != [] {
      StepValid(w, steps[0]);
      assert steps[0] in steps && forall s <- steps[1..] :: s in steps;
      EveryRun(Do(w, steps[0]), steps[1..]);
    }
  }

  /** A mishap while data waits and nothing else is outstanding that would write it. */
  predicate Stalls(w: Writer, s: Step) {
    && Mishap(s) && w.outgoing + (if s.Posted? then s.data else "") != ""
    && (w.active || s.Setup?) && (w.writing ==> s.Written?)
  }

  /** The writer stalls in exactly one way, and stays so until data is posted without a mishap. */
  lemma StallsIff(w: Writer, s: Step)
    requires Valid(w) && Enabled(w, s)
    ensures Stalled(Do(w, s)) <==> if Stalled(w) then s.Posted? && s.weak else Stalls(w, s)
  {
  }

  lemma {:induction false} RunLast(w: Writer, steps: seq<Step>)
    requires Possible(w, steps) && steps != []
    ensures var init := steps[..|steps| - 1];
            && Possible(w, init) && Enabled(Run(w, init), steps[|steps| - 1])
            && Run(w, steps) == Do(Run(w, init), steps[|steps| - 1])
    decreases |steps|
  {
    hide Do;
    if |steps| == 1 {
      assert steps[..0] == [] && steps[1..] == [];
    } else {
      var rest := steps[1..];
      RunLast(Do(w, steps[0]), rest);
      assert steps[..|steps| - 1][1..] == rest[..|rest| - 1] && rest[|rest| - 1] == steps[|steps| - 1];
    }
  }

  /** Step `k` stalls the writer, and all that follows it is data whose exchange fails spuriously. */
  predicate StallsForGood(w: Writer, steps: seq<Step>, k: nat)
    requires k < |steps|
  {
    Stalls(Run(w, steps[..k]), steps[k]) && forall i | k < i < |steps| :: steps[i].Posted? && steps[i].weak
  }

  /**
   * A run ends with data waiting and nothing outstanding if and only if some mishap stalled the
   * writer, and no data was posted since without one.
   */
  lemma {:induction false} RunStallsIff(w: Writer, steps: seq<Step>)
    requires Valid(w) && Possible(w, steps) && !Stalled(w)
    ensures Stalled(Run(w, steps)) <==> exists k: nat | k < |steps| :: StallsForGood(w, steps, k)
    decreases |steps|
  {
    if steps != [] {
      var n := |steps| - 1;
      var init, last := steps[..n], steps[n];
      RunLast(w, steps);
      EveryRun(w, init);
      StallsIff(Run(w, init), last);
      RunStallsIff(w, init);
      hide Run;
      hide Do;
      hide Stalls;
      forall k: nat | k < n
        ensures StallsForGood(w, steps, k) <==> StallsForGood(w, init, k) && last.Posted? && last.weak
      {
        assert init[..k] == steps[..k];
        assert forall i | k < i < n :: init[i] == steps[i];
      }
      assert StallsForGood(w, steps, n) <==> Stalls(Run(w, init), last);
      if Stalled(Run(w, init)) {
        StalledDoesNotStall(Run(w, init), last);
      }
    }
  }

  /** What is stalled already only waits on. */
  lemma StalledDoesNotStall(w: Writer, s: Step)
    requires Valid(w) && Enabled(w, s) && Stalled(w)
    ensures Stalls(w, s) <==> s.Posted? && s.weak
  {
  }

  /** A stalled writer recovers with the next data, which it sends together with the rest. */
  lemma StallEnds(w: Writer, data: string)
    requires Stalled(w)
    ensures var next := Do(w, Posted(data, false));
            !Stalled(next) && next.outgoing == "" && next.batches == w.batches + [w.outgoing + data]
  {
  }

  // ---- Reading. ----

  /** `parse` says how many bytes of its argument make up the next frame, 0 if it is incomplete. */
  ghost predicate Sensible(parse: string -> nat) {
    && (forall s :: parse(s) <= |s|)
    && (forall s, t :: parse(s) > 0 ==> parse(s + t) == parse(s))
  }

  datatype Split = Split(frames: seq<string>, rest: string)

  /** One-shot specification: the frames of a whole text, and what is left. */
  ghost function Frames(parse: string -> nat, s: string): Split
    requires Sensible(parse)
    decreases |s|
  {
    var n := parse(s);
    if n == 0 then Split([], s)
    else
      var more := Frames(parse, s[n..]);
      Split([s[..n]] + more.frames, more.rest)
  }

  ghost function Received(parse: string -> nat, before: Split, data: string): Split
    requires Sensible(parse)
  {
    var more := Frames(parse, before.rest + data);
    Split(before.frames + more.frames, more.rest)
  }

  ghost function ReceivedAll(parse: string -> nat, before: Split, pieces: seq<string>): Split
    requires Sensible(parse)
    decreases |pieces|
  {
    if pieces == [] then before else ReceivedAll(parse, Received(parse, before, pieces[0]), pieces[1..])
  }

  /** A frame is a part of the text. */
  lemma FrameFits(parse: string -> nat, s: string)
    requires Sensible(parse)
    ensures parse(s) <= |s|
  {
  }

  lemma FlattenFirst(first: string, more: seq<string>)
    ensures Flatten([first] + more) == first + Flatten(more)
  {
    assert ([first] + more)[1..] == more;
  }

  lemma FramesFirst(parse: string -> nat, s: string)
    requires Sensible(parse) && parse(s) > 0
    ensures parse(s) <= |s|
    ensures Frames(parse, s).frames == [s[..parse(s)]] + Frames(parse, s[parse(s)..]).frames
    ensures Frames(parse, s).rest == Frames(parse, s[parse(s)..]).rest
  {
    FrameFits(parse, s);
    hide Sensible;
  }

  lemma {:induction false} FramesSpell(parse: string -> nat, s: string)
    requires Sensible(parse)
    ensures Flatten(Frames(parse, s).frames) + Frames(parse, s).rest == s
    decreases |s|
  {
    hide Sensible;
    hide Flatten;
    if parse(s) == 0 {
      FlattenNone();
      assert "" + s == s;
    } else {
      FramesFirst(parse, s);
      var first, rest := s[..parse(s)], s[parse(s)..];
      FramesSpell(parse, rest);
      hide Frames;
      var fs, r := Frames(parse, rest).frames, Frames(parse, rest).rest;
      FlattenFirst(first, fs);
      Regroup(first, Flatten(fs), r);
      CutInTwo(s, parse(s));
    }
  }

  lemma {:induction false} FramesComplete(parse: string -> nat, s: string)
    requires Sensible(parse)
    ensures parse(Frames(parse, s).rest) == 0 && forall f <- Frames(parse, s).frames :: f != ""
    decreases |s|
  {
    hide Sensible;
    if parse(s) > 0 {
      FramesFirst(parse, s);
      FramesComplete(parse, s[parse(s)..]);
      hide Frames;
    }
  }

  /** Frames followed by the rest are the text, and the rest holds no complete frame. */
  lemma FramesConserve(parse: string -> nat, s: string)
    requires Sensible(parse)
    ensures var r := Frames(parse, s);
            Flatten(r.frames) + r.rest == s && parse(r.rest) == 0 && forall f <- r.frames :: f != ""
  {
    hide Sensible;
    hide Frames;
    FramesSpell(parse, s);
    FramesComplete(parse, s);
  }

  lemma CutInTwo(s: string, n: nat)
    requires n <= |s|
    ensures s[..n] + s[n..] == s
  {
  }

  lemma Regroup(a: string, b: string, c: string)
    ensures (a + b) + c == a + (b + c)
  {
  }

  lemma FlattenNone()
    ensures Flatten([]) == ""
  {
  }

  lemma {:induction false} FramesConcat(parse: string -> nat, a: string, b: string)
    requires Sensible(parse)
    ensures Frames(parse, a + b) == Received(parse, Frames(parse, a), b)
    decreases |a|
  {
    var n := parse(a);
    if n > 0 {
      assert parse(a + b) == n;
      assert (a + b)[n..] == a[n..] + b && (a + b)[..n] == a[..n];
      FramesConcat(parse, a[n..], b);
      var x, y := Frames(parse, a[n..]), Frames(parse, Frames(parse, a[n..]).rest + b);
      assert [a[..n]] + (x.frames + y.frames) == ([a[..n]] + x.frames) + y.frames;
    }
  }

  /** However the bytes are fragmented, the frames and the rest are those of the whole text. */
  lemma {:induction false} FragmentationIrrelevant(parse: string -> nat, before: Split, pieces: seq<string>)
    requires Sensible(parse) && parse(before.rest) == 0
    ensures ReceivedAll(parse, before, pieces) == Received(parse, before, Flatten(pieces))
    decreases |pieces|
  {
    if pieces == [] {
      assert before.rest + "" == before.rest;
    } else {
      var next := Received(parse, before, pieces[0]);
      var a, b := before.rest + pieces[0], Flatten(pieces[1..]);
      FramesConserve(parse, a);
      FragmentationIrrelevant(parse, next, pieces[1..]);
      ReceivedTwice(parse, before, pieces[0], b);
    }
  }

  lemma ReceivedTwice(parse: string -> nat, before: Split, a: string, b: string)
    requires Sensible(parse)
    ensures Received(parse, Received(parse, before, a), b) == Received(parse, before, a + b)
  {
    hide Frames;
    var t := before.rest + a;
    FramesConcat(parse, t, b);
    assert t + b == before.rest + (a + b);
    var x, y := Frames(parse, t), Frames(parse, Frames(parse, t).rest + b);
    assert (before.frames + x.frames) + y.frames == before.frames + (x.frames + y.frames);
  }

  /** One turn of the read loop: a frame is consumed, or the text is kept. */
  lemma FrameStep(parse: string -> nat, done: seq<string>, text: string)
    requires Sensible(parse)
    ensures var n := parse(text);
            && n <= |text|
            && Received(parse, Split(done, ""), text) ==
               if n == 0 then Split(done, text)
               else Received(parse, Split(done + [text[..n]], ""), text[n..])
  {
    var n := parse(text);
    assert "" + text == text && "" + text[n..] == text[n..];
    if n == 0 {
      assert done + [] == done;
    } else {
      var more := Frames(parse, text[n..]).frames;
      assert done + ([text[..n]] + more) == (done + [text[..n]]) + more;
    }
  }

  class Connection {
    var active: bool
    var writing: bool
    var outgoing: string
    var incoming: string
    /** What the socket was given, and the frames the AMQP library consumed. */
    var batches: seq<string>
    var frames: seq<string>
    ghost var posted: string
    ghost var completions: nat

    ghost function Writes(): Writer
      reads this
    {
      Writer(active, writing, outgoing, posted, batches, completions)
    }

    constructor ()
      ensures Writes() == IDLE && Valid(Writes()) && incoming == "" && frames == []
    {
      active, writing, outgoing, incoming, batches, frames := false, false, "", "", [], [];
      posted, completions := "", 0;
    }

    /** `weak` is the spurious failure that compare_exchange_weak may report. */
    method WriteOut(weak: bool)
      requires active
      modifies this`writing, this`outgoing, this`batches
      ensures Writes() == WriteHandler(old(Writes()), weak)
    {
      var exchanged := !writing && !weak;
      if exchanged {
        writing := true;
      }
      if !exchanged {
        return;
      }
      if outgoing == "" {
        writing := false;
        return;
      }
      batches := batches + [outgoing];
      outgoing := "";
    }

    method SetUp(weak: bool)
      requires Valid(Writes()) && !active
      modifies this`active, this`writing, this`outgoing, this`batches
      ensures Valid(Writes()) && Writes() == Do(old(Writes()), Setup(weak))
    {
      StepValid(Writes(), Setup(weak));
      active := true;
      if outgoing != "" {
        WriteOut(weak);
      }
    }

    /** The step that onData posts to the strand. */
    method OnData(data: string, weak: bool)
      requires Valid(Writes())
      modifies this`writing, this`outgoing, this`batches, this`posted
      ensures Valid(Writes()) && Writes() == Do(old(Writes()), Posted(data, weak))
      ensures Flatten(batches) + outgoing == old(Flatten(batches) + outgoing) + data
    {
      StepValid(Writes(), Posted(data, weak));
      StepPosts(Writes(), Posted(data, weak));
      outgoing := outgoing + data;
      posted := posted + data;
      if active {
        WriteOut(weak);
      }
    }

    /** The step that the completed write of a batch posts to the strand. */
    method OnWritten(ok: bool, weak: bool)
      requires Valid(Writes()) && writing
      modifies this`writing, this`outgoing, this`batches, this`completions
      ensures Valid(Writes()) && Writes() == Do(old(Writes()), Written(ok, weak))
    {
      StepValid(Writes(), Written(ok, weak));
      writing := false;
      completions := completions + 1;
      if ok {
        WriteOut(weak);
      }
    }

    /** The step that a completed read of `data` posts to the strand. */
    method OnRead(parse: string -> nat, data: string)
      requires Sensible(parse)
      modifies this`incoming, this`frames
      ensures Split(frames, incoming) == Received(parse, Split(old(frames), old(incoming)), data)
    {
      hide Frames;
      incoming := incoming + data;
      var available: nat := |incoming|;
      var processed: nat := 0;
      assert "" + incoming[processed..] == incoming;
      while available > 0
        invariant available + processed == |incoming|
        invariant incoming == old(incoming) + data
        invariant Received(parse, Split(frames, ""), incoming[processed..]) ==
                  Received(parse, Split(old(frames), ""), incoming)
        decreases available
      {
        FrameStep(parse, frames, incoming[processed..]);
        var parsed := parse(incoming[processed..]);
        if parsed == 0 {
          break;
        }
        assert incoming[processed..][parsed..] == incoming[processed + parsed..];
        frames := frames + [incoming[processed..][..parsed]];
        processed := processed + parsed;
        available := available - parsed;
      }
      FrameStep(parse, frames, incoming[processed..]);
      assert "" + incoming == incoming;
      incoming := incoming[processed..];
    }
  }
}
